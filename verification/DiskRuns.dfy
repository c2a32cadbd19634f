/** The live exporter over bytes: its files are read, truncated, appended to and replaced as bytes,
    an append may be cut at any byte, and every such run is a run of the machine over records. */
module DiskRuns {
  import opened Options
  import opened Calendar
  import opened Spans
  import opened Keys
  import opened Decisions
  import Lines
  import Torn
  import opened Live
  import LiveSafety
  import LiveLoss
  import opened Disk

  // ---------------------------------------------------------------- what is on disk and in memory

  /** The stored records, the bytes of each period's file, and one exporter's memory. */
  datatype Volume = Volume(
    db: set<Key>,
    disk: map<Moment, Bytes>,
    pending: Ranges,
    working: Ranges,
    last: map<Moment, Option<Key>>,
    late: set<Moment>,
    notified: set<Key>)

  /** The machine's state with the same memory and some files. */
  function Seen(d: Volume, files: Files): State {
    State(d.db, files, d.pending, d.working, d.last, d.late, d.notified)
  }

  /** The store once memory and records are those of a state. */
  function Remembering(d: Volume, s: State): Volume {
    Volume(s.db, d.disk, s.pending, s.working, s.last, s.late, s.notified)
  }

  ghost predicate Simulates(f: Format, d: Volume, s: State) {
    s == Seen(d, s.files) && OnDisk(f, s.files, d.disk)
  }

  // ---------------------------------------------------------------- reading bytes

  function BytesAt(disk: map<Moment, Bytes>, start: Moment): Bytes {
    if start in disk then disk[start] else []
  }

  function LastOn(f: Format, bytes: Bytes): Option<Key> {
    match Lines.TailOf(f.grouping, f.header, f.key, bytes)
    case Tail(last, _) => last
    case OtherHeader => None
  }

  /** The bytes once what follows their tail is truncated. */
  function CutBack(f: Format, bytes: Bytes): Bytes {
    match Lines.TailOf(f.grouping, f.header, f.key, bytes)
    case Tail(_, length) => if length < |bytes| then bytes[..length] else bytes
    case OtherHeader => bytes
  }

  /** The key a wake appends after, and the disk once it has looked for one. */
  function PreviousOn(f: Format, d: Volume, start: Moment): Option<Key> {
    if start in d.last then d.last[start] else if start in d.disk then LastOn(f, d.disk[start]) else None
  }

  function OpenedOn(f: Format, d: Volume, start: Moment): map<Moment, Bytes> {
    if start !in d.last && start in d.disk then d.disk[start := CutBack(f, d.disk[start])] else d.disk
  }

  // ---------------------------------------------------------------- steps over bytes

  /** The steps of the exporter. `Memory` takes those of the machine that leave files alone. */
  datatype DiskStep =
    | Memory(step: Step)
    | WriteBytes(start: Moment)
    | FailWriting(start: Moment, cut: nat)
    | CrashWriting(start: Moment, cut: nat)
    | CheckBytes(start: Moment, through: Moment)
    | RaiseChecking(start: Moment, through: Moment)
    | CrashChecking(start: Moment, through: Moment, cut: nat)
    | ExportBytes(start: Moment, conflict: Conflict, selected: Span, history: Option<Moment>)

  predicate LeavesFiles(step: Step) {
    step.Store? || step.Prune? || step.Notify? || step.Take? || step.Trim? || step.Fail? ||
      (step.Crash? && step.cut.Idle?)
  }

  function FoundOn(d: Volume, start: Moment): seq<Key>
    requires start in d.working
  {
    Sorted(InRange(d.db, d.working[start]))
  }

  function WakeOn(f: Format, d: Volume, start: Moment): seq<Key>
    requires start in d.working
  {
    Newer(FoundOn(d, start), PreviousOn(f, d, start))
  }

  /** A period's file once some records are appended to its opened bytes. */
  function Added(f: Format, disk: map<Moment, Bytes>, start: Moment, newer: seq<Key>): Bytes {
    Lines.AppendTo(f.header, BytesAt(disk, start), Encoded(f, newer))
  }

  function WriteOn(f: Format, d: Volume, start: Moment): Volume
    requires start in d.working
  {
    var done, found := d.(working := d.working - {start}), FoundOn(d, start);
    if found == [] then done
    else
      var previous, newer, opened_ := PreviousOn(f, d, start), WakeOn(f, d, start), OpenedOn(f, d, start);
      var marked := done.(disk := opened_, late := if Late(found, previous) then d.late + {start} else d.late);
      if newer == [] then marked
      else marked.(disk := opened_[start := Added(f, opened_, start, newer)],
                   last := d.last[start := NewLast(previous, newer[|newer| - 1])])
  }

  /** A wake's append cut at a byte. */
  function CutWriteOn(f: Format, d: Volume, start: Moment, cut: nat): Volume
    requires start in d.working && cut <= |Added(f, OpenedOn(f, d, start), start, WakeOn(f, d, start))|
  {
    var opened_ := OpenedOn(f, d, start);
    d.(disk := opened_[start := Added(f, opened_, start, WakeOn(f, d, start))[..cut]])
  }

  function ResumeOn(f: Format, period: Period, d: Volume, start: Moment, through: Moment): seq<Key>
    requires Aligned(period, start) && start in d.disk
  {
    ResumeAfter(period, d.db, start, LastOn(f, d.disk[start]), through)
  }

  function CheckOn(f: Format, period: Period, d: Volume, start: Moment, through: Moment): Volume
    requires Aligned(period, start)
  {
    if start !in d.disk then
      var content := Sorted(Query(d.db, Until(Bounds(period, start), through)));
      if content == [] then d else d.(disk := d.disk[start := Whole(f, content)])
    else
      var trimmed := TrimOn(f, d, start);
      var newer := ResumeOn(f, period, d, start, through);
      if newer == [] then trimmed
      else trimmed.(disk := trimmed.disk[start := Added(f, trimmed.disk, start, newer)],
                    last := d.last[start := Some(newer[|newer| - 1])])
  }

  /** A check that has read a file's end: the key is remembered, the torn part cut off. */
  function TrimOn(f: Format, d: Volume, start: Moment): Volume
    requires start in d.disk
  {
    d.(disk := d.disk[start := CutBack(f, d.disk[start])], last := d.last[start := LastOn(f, d.disk[start])])
  }

  function CutCheckOn(f: Format, period: Period, d: Volume, start: Moment, through: Moment, cut: nat): Volume
    requires Aligned(period, start) && start in d.disk
    requires cut <= |Added(f, TrimOn(f, d, start).disk, start, ResumeOn(f, period, d, start, through))|
  {
    var disk := TrimOn(f, d, start).disk;
    d.(disk := disk[start := Added(f, disk, start, ResumeOn(f, period, d, start, through))[..cut]])
  }

  function ExportOn(f: Format, period: Period, d: Volume, start: Moment, conflict: Conflict, selected: Span,
                    history: Option<Moment>): Volume
    requires Aligned(period, start)
  {
    var content, whole := Sorted(Query(d.db, selected)), Bounds(period, start);
    AppliedOn(f, d, start, content,
              Decide(conflict, start in d.disk, content != [], whole != selected, BeforeHistory(whole, history)))
  }

  function AppliedOn(f: Format, d: Volume, start: Moment, content: seq<Key>, decision: Decision): Volume {
    match decision
    case Refused => d
    case Decided(action, _) =>
      match action
      case Keep => d
      case Remove => d.(disk := d.disk - {start}, last := d.last - {start}, late := d.late - {start})
      case Nothing => d.(last := d.last - {start}, late := d.late - {start})
      case _ => d.(disk := d.disk[start := Whole(f, content)], last := d.last - {start}, late := d.late - {start})
  }

  /** When the exporter can take a step. A cut append has begun, so it has something to append. */
  predicate Can(f: Format, period: Period, d: Volume, step: DiskStep) {
    match step
    case Memory(inner) => LeavesFiles(inner) && Enabled(period, Seen(d, map[]), inner)
    case WriteBytes(start) => start in d.working
    case FailWriting(start, cut) => start in d.working && start !in d.last && CutsWrite(f, d, start, cut)
    case CrashWriting(start, cut) => start in d.working && CutsWrite(f, d, start, cut)
    case CheckBytes(start, _) => Aligned(period, start)
    case RaiseChecking(start, _) => Aligned(period, start) && start in d.disk
    case CrashChecking(start, through, cut) =>
      Aligned(period, start) && start in d.disk && CutsCheck(f, period, d, start, through, cut)
    case ExportBytes(start, _, selected, _) => Aligned(period, start) && Within(selected, Bounds(period, start))
  }

  predicate CutsWrite(f: Format, d: Volume, start: Moment, cut: nat)
    requires start in d.working
  {
    var opened_, newer := OpenedOn(f, d, start), WakeOn(f, d, start);
    newer != [] && |BytesAt(opened_, start)| <= cut <= |Added(f, opened_, start, newer)|
  }

  predicate CutsCheck(f: Format, period: Period, d: Volume, start: Moment, through: Moment, cut: nat)
    requires Aligned(period, start) && start in d.disk
  {
    var disk, newer := TrimOn(f, d, start).disk, ResumeOn(f, period, d, start, through);
    newer != [] && |BytesAt(disk, start)| <= cut <= |Added(f, disk, start, newer)|
  }

  function Forgotten(d: Volume): Volume {
    d.(pending := map[], working := map[], last := map[], late := {}, notified := {})
  }

  function GivenBack(d: Volume): Volume {
    d.(pending := Restored(d.pending, d.working), working := map[])
  }

  function NextOn(f: Format, period: Period, d: Volume, step: DiskStep): Volume
    requires Can(f, period, d, step)
  {
    match step
    case Memory(inner) => Remembering(d, Next(period, Seen(d, map[]), inner))
    case WriteBytes(start) => WriteOn(f, d, start)
    case FailWriting(start, cut) => GivenBack(CutWriteOn(f, d, start, cut))
    case CrashWriting(start, cut) => Forgotten(CutWriteOn(f, d, start, cut))
    case CheckBytes(start, through) => CheckOn(f, period, d, start, through)
    case RaiseChecking(start, _) => GivenBack(TrimOn(f, d, start))
    case CrashChecking(start, through, cut) => Forgotten(CutCheckOn(f, period, d, start, through, cut))
    case ExportBytes(start, conflict, selected, history) => ExportOn(f, period, d, start, conflict, selected, history)
  }

  // ---------------------------------------------------------------- each step is a step of the machine

  lemma TailStored(f: Format, file: File, bytes: Bytes)
    requires Sound(f) && Stores(f, file, bytes)
    ensures LastOn(f, bytes) == LastOf(file.records)
    ensures Stores(f, File(file.records, false), CutBack(f, bytes))
    ensures !file.torn ==> CutBack(f, bytes) == bytes
  {
    hide Sound;
    hide Stores;
    hide Lines.TailOf;
    TailIsUntorn(f, file, bytes);
    var tail := Lines.TailOf(f.grouping, f.header, f.key, bytes);
    assert tail.length == |bytes| ==> bytes[..tail.length] == bytes;
  }

  lemma EmptyStored(f: Format)
    ensures Stores(f, File([], false), [])
  {
    NothingTorn(f);
    assert Lines.Concat(Encoded(f, [])) == [];
  }

  lemma PutOnDisk(f: Format, files: Files, disk: map<Moment, Bytes>, start: Moment, file: File, bytes: Bytes)
    requires OnDisk(f, files, disk) && Stores(f, file, bytes)
    ensures OnDisk(f, files[start := file], disk[start := bytes])
    ensures OnDisk(f, files - {start}, disk - {start})
  {
    hide Stores;
  }

  /** Opening a file for a wake reads the same key from bytes as the machine knows, and leaves bytes
      without a torn end. */
  lemma OpenedSimulates(f: Format, period: Period, d: Volume, s: State, start: Moment)
    requires Sound(f) && LiveSafety.Safe(period, s) && Simulates(f, d, s)
    ensures PreviousOn(f, d, start) == Previous(s, start)
    ensures OnDisk(f, Opened(s, start), OpenedOn(f, d, start))
    ensures Stores(f, File(Records(s.files, start), false), BytesAt(OpenedOn(f, d, start), start))
    ensures Records(Opened(s, start), start) == Records(s.files, start)
  {
    hide Sound;
    hide Stores;
    hide LastOn;
    hide CutBack;
    if start in s.files {
      TailStored(f, s.files[start], d.disk[start]);
      PutOnDisk(f, s.files, d.disk, start, File(s.files[start].records, false), CutBack(f, d.disk[start]));
    } else {
      EmptyStored(f);
    }
    if start in s.last {
      assert LiveSafety.LastOk(s.files, start, s.last[start]);
    }
  }

  lemma AddedStores(f: Format, files: Files, disk: map<Moment, Bytes>, start: Moment, newer: seq<Key>)
    requires Sound(f) && OnDisk(f, files, disk) && newer != []
    requires Stores(f, File(Records(files, start), false), BytesAt(disk, start))
    ensures OnDisk(f, Appended(files, start, newer, |newer|, false), disk[start := Added(f, disk, start, newer)])
  {
    hide Sound;
    hide Stores;
    AppendFinishes(f, Records(files, start), newer, BytesAt(disk, start));
    PutOnDisk(f, files, disk, start, File(Records(files, start) + newer, false), Added(f, disk, start, newer));
    assert newer[..|newer|] == newer;
  }

  lemma CutStores(f: Format, files: Files, disk: map<Moment, Bytes>, start: Moment, newer: seq<Key>, cut: nat)
    returns (count: nat, torn: bool)
    requires Sound(f) && OnDisk(f, files, disk) && newer != []
    requires Stores(f, File(Records(files, start), false), BytesAt(disk, start))
    requires |BytesAt(disk, start)| <= cut <= |Added(f, disk, start, newer)|
    ensures Cuts(newer, count, torn)
    ensures OnDisk(f, Appended(files, start, newer, count, torn), disk[start := Added(f, disk, start, newer)[..cut]])
  {
    hide Sound;
    hide Stores;
    count, torn := CutIsAppended(f, Records(files, start), newer, BytesAt(disk, start), cut);
    PutOnDisk(f, files, disk, start, File(Records(files, start) + newer[..count], torn),
             Added(f, disk, start, newer)[..cut]);
  }

  lemma WakeSimulates(f: Format, period: Period, d: Volume, s: State, start: Moment)
    requires Sound(f) && LiveSafety.Safe(period, s) && Simulates(f, d, s) && start in s.working
    ensures FoundOn(d, start) == Found(s, start) && WakeOn(f, d, start) == WakeKeys(s, start)
  {
    hide Sound;
    hide Newer;
    OpenedSimulates(f, period, d, s, start);
  }

  lemma WriteSimulates(f: Format, period: Period, d: Volume, s: State, start: Moment)
    requires Sound(f) && LiveSafety.Safe(period, s) && Simulates(f, d, s) && start in s.working
    ensures Simulates(f, WriteOn(f, d, start), WritePeriod(s, start))
  {
    hide Sound;
    hide Stores;
    hide OnDisk;
    hide LiveSafety.Safe;
    OpenedSimulates(f, period, d, s, start);
    WakeSimulates(f, period, d, s, start);
    if WakeKeys(s, start) != [] {
      AddedStores(f, Opened(s, start), OpenedOn(f, d, start), start, WakeKeys(s, start));
    }
    WriteReads(f, d, s, start);
  }

  /** Writing a period from bytes, once they are known to read and to be opened as the machine's. */
  lemma WriteReads(f: Format, d: Volume, s: State, start: Moment)
    requires s == Seen(d, s.files) && start in s.working && OnDisk(f, s.files, d.disk)
    requires PreviousOn(f, d, start) == Previous(s, start)
    requires FoundOn(d, start) == Found(s, start) && WakeOn(f, d, start) == WakeKeys(s, start)
    requires OnDisk(f, Opened(s, start), OpenedOn(f, d, start))
    requires var newer := WakeKeys(s, start);
             newer != [] ==> OnDisk(f, Appended(Opened(s, start), start, newer, |newer|, false),
                                    OpenedOn(f, d, start)[start := Added(f, OpenedOn(f, d, start), start, newer)])
    ensures Simulates(f, WriteOn(f, d, start), WritePeriod(s, start))
  {
    hide Opened;
    hide OpenedOn;
    hide Previous;
    hide PreviousOn;
    hide WakeKeys;
    hide WakeOn;
    hide Found;
    hide FoundOn;
    hide OnDisk;
    hide Added;
    hide Appended;
    hide NewLast;
    hide Late;
  }

  lemma CutWriteSimulates(f: Format, period: Period, d: Volume, s: State, start: Moment, cut: nat)
    returns (count: nat, torn: bool)
    requires Sound(f) && LiveSafety.Safe(period, s) && Simulates(f, d, s) && start in s.working &&
             CutsWrite(f, d, start, cut)
    ensures Cuts(WakeKeys(s, start), count, torn)
    ensures Simulates(f, CutWriteOn(f, d, start, cut), CutWake(s, start, count, torn))
  {
    hide Sound;
    hide Stores;
    OpenedSimulates(f, period, d, s, start);
    WakeSimulates(f, period, d, s, start);
    hide LiveSafety.Safe;
    hide Opened;
    hide OpenedOn;
    hide WakeKeys;
    hide WakeOn;
    hide OnDisk;
    hide Added;
    hide Appended;
    count, torn := CutStores(f, Opened(s, start), OpenedOn(f, d, start), start, WakeKeys(s, start), cut);
  }

  /** A check reads the same end of a file. */
  lemma TrimSimulates(f: Format, period: Period, d: Volume, s: State, start: Moment, through: Moment)
    requires Sound(f) && Simulates(f, d, s) && start in s.files && Aligned(period, start)
    ensures OnDisk(f, Untorn(s.files, start), TrimOn(f, d, start).disk)
    ensures Stores(f, File(Records(s.files, start), false), BytesAt(TrimOn(f, d, start).disk, start))
    ensures TrimOn(f, d, start).last == s.last[start := LastOf(s.files[start].records)]
    ensures ResumeOn(f, period, d, start, through) == ResumeKeys(period, s, start, through)
    ensures Records(Untorn(s.files, start), start) == Records(s.files, start)
  {
    hide Sound;
    hide Stores;
    hide LastOn;
    hide CutBack;
    hide ResumeAfter;
    TailStored(f, s.files[start], d.disk[start]);
    PutOnDisk(f, s.files, d.disk, start, File(s.files[start].records, false), CutBack(f, d.disk[start]));
  }

  lemma CheckSimulates(f: Format, period: Period, d: Volume, s: State, start: Moment, through: Moment)
    requires Sound(f) && Simulates(f, d, s) && Aligned(period, start)
    ensures Simulates(f, CheckOn(f, period, d, start, through), CheckPeriod(period, s, start, through))
  {
    hide Sound;
    hide Stores;
    hide Whole;
    hide Bounds;
    hide Query;
    if start in s.files {
      hide CheckOn;
      hide CheckPeriod;
      ResumeSimulates(f, period, d, s, start, through);
    } else {
      var content := Sorted(Query(s.db, Until(Bounds(period, start), through)));
      WrittenWhole(f, content);
      PutOnDisk(f, s.files, d.disk, start, File(content, false), Whole(f, content));
    }
  }

  lemma ResumeSimulates(f: Format, period: Period, d: Volume, s: State, start: Moment, through: Moment)
    requires Sound(f) && Simulates(f, d, s) && Aligned(period, start) && start in s.files
    ensures Simulates(f, CheckOn(f, period, d, start, through), CheckPeriod(period, s, start, through))
  {
    hide Sound;
    hide Stores;
    TrimSimulates(f, period, d, s, start, through);
    assert start in d.disk;
    var newer := ResumeKeys(period, s, start, through);
    hide OnDisk;
    hide ResumeKeys;
    hide ResumeOn;
    if newer != [] {
      AddedStores(f, Untorn(s.files, start), TrimOn(f, d, start).disk, start, newer);
    }
    ResumeReads(f, period, d, s, start, through);
  }

  lemma ResumeReads(f: Format, period: Period, d: Volume, s: State, start: Moment, through: Moment)
    requires Simulates(f, d, s) && Aligned(period, start) && start in s.files && start in d.disk
    requires OnDisk(f, Untorn(s.files, start), TrimOn(f, d, start).disk)
    requires TrimOn(f, d, start).last == s.last[start := LastOf(s.files[start].records)]
    requires ResumeOn(f, period, d, start, through) == ResumeKeys(period, s, start, through)
    requires var newer, disk := ResumeKeys(period, s, start, through), TrimOn(f, d, start).disk;
             newer != [] ==> OnDisk(f, Appended(Untorn(s.files, start), start, newer, |newer|, false),
                                    disk[start := Added(f, disk, start, newer)])
    ensures Simulates(f, CheckOn(f, period, d, start, through), CheckPeriod(period, s, start, through))
  {
    hide OnDisk;
    hide ResumeKeys;
    hide ResumeOn;
    hide Added;
    hide Appended;
    hide Untorn;
    hide CutBack;
    hide LastOn;
    hide LastOf;
    var newer := ResumeKeys(period, s, start, through);
    if newer != [] {
      assert s.last[start := LastOf(s.files[start].records)][start := Some(newer[|newer| - 1])]
               == s.last[start := Some(newer[|newer| - 1])];
    }
  }

  lemma RaiseSimulates(f: Format, period: Period, d: Volume, s: State, start: Moment, through: Moment)
    requires Sound(f) && Simulates(f, d, s) && start in s.files && Aligned(period, start)
    ensures Simulates(f, TrimOn(f, d, start), CheckCut(period, s, start, through, 0, false))
  {
    hide Sound;
    hide Stores;
    hide ResumeKeys;
    TrimSimulates(f, period, d, s, start, through);
    var records := s.files[start].records;
    assert records + ResumeKeys(period, s, start, through)[..0] == records;
    assert Untorn(s.files, start)[start := File(records, false)] == Untorn(s.files, start);
  }

  lemma CutCheckSimulates(f: Format, period: Period, d: Volume, s: State, start: Moment, through: Moment, cut: nat)
    returns (count: nat, torn: bool)
    requires Sound(f) && Simulates(f, d, s) && Aligned(period, start) && start in s.files
    requires CutsCheck(f, period, d, start, through, cut)
    ensures Cuts(ResumeKeys(period, s, start, through), count, torn)
    ensures Simulates(f, CutCheckOn(f, period, d, start, through, cut),
                      CutCheck(period, s, start, through, count, torn))
  {
    hide Sound;
    hide Stores;
    TrimSimulates(f, period, d, s, start, through);
    hide ResumeKeys;
    hide ResumeOn;
    hide OnDisk;
    hide Added;
    hide Appended;
    hide Untorn;
    count, torn := CutStores(f, Untorn(s.files, start), TrimOn(f, d, start).disk, start,
                             ResumeKeys(period, s, start, through), cut);
  }

  lemma AppliedSimulates(f: Format, d: Volume, s: State, start: Moment, content: seq<Key>, decision: Decision)
    requires Sound(f) && Simulates(f, d, s)
    ensures Simulates(f, AppliedOn(f, d, start, content, decision), Applied(s, start, content, decision))
  {
    hide Sound;
    hide Stores;
    WrittenWhole(f, content);
    PutOnDisk(f, s.files, d.disk, start, File(content, false), Whole(f, content));
    hide OnDisk;
    hide Whole;
  }

  lemma ExportSimulates(f: Format, period: Period, d: Volume, s: State, start: Moment, conflict: Conflict,
                        selected: Span, history: Option<Moment>)
    requires Sound(f) && Simulates(f, d, s) && Aligned(period, start)
    ensures Simulates(f, ExportOn(f, period, d, start, conflict, selected, history),
                      ExportFile(period, s, start, conflict, selected, history))
  {
    hide Sound;
    hide Stores;
    hide Applied;
    hide AppliedOn;
    hide Sorted;
    hide Query;
    hide Bounds;
    hide Decide;
    hide BeforeHistory;
    var content, whole := Sorted(Query(s.db, selected)), Bounds(period, start);
    var decision := Decide(conflict, start in s.files, content != [], whole != selected, BeforeHistory(whole, history));
    AppliedSimulates(f, d, s, start, content, decision);
    assert start in s.files <==> start in d.disk;
  }

  lemma MemorySimulates(f: Format, period: Period, d: Volume, s: State, inner: Step)
    requires Simulates(f, d, s) && LeavesFiles(inner) && Enabled(period, Seen(d, map[]), inner)
    ensures Enabled(period, s, inner) && Next(period, s, inner).files == s.files
    ensures Simulates(f, Remembering(d, Next(period, Seen(d, map[]), inner)), Next(period, s, inner))
  {
    hide OnDisk;
    hide Notified;
    hide Restored;
  }

  /** Whether a step is a run that may drop a notified record: a purge of part of a file. */
  predicate Drops(period: Period, step: DiskStep) {
    step.ExportBytes? && step.conflict == Purge && Aligned(period, step.start) &&
      step.selected != Bounds(period, step.start)
  }

  /** Whatever the exporter does to bytes is a step of the machine over the records they store. */
  lemma StepSimulates(f: Format, period: Period, d: Volume, s: State, step: DiskStep) returns (taken: Step)
    requires Sound(f) && LiveSafety.Safe(period, s) && Simulates(f, d, s) && Can(f, period, d, step)
    ensures Enabled(period, s, taken) && Simulates(f, NextOn(f, period, d, step), Next(period, s, taken))
    ensures (taken.Export? ==> Aligned(period, taken.start)) &&
            (LiveLoss.Discards(period, taken) ==> Drops(period, step))
  {
    hide Sound;
    hide LiveSafety.Safe;
    hide OnDisk;
    hide WakeKeys;
    hide WakeOn;
    hide ResumeKeys;
    hide ResumeOn;
    hide WriteOn;
    hide WritePeriod;
    hide CutWriteOn;
    hide CutWake;
    hide CheckOn;
    hide CheckPeriod;
    hide CutCheckOn;
    hide CutCheck;
    hide CheckCut;
    hide ExportOn;
    hide ExportFile;
    hide Bounds;
    hide Within;
    hide Restored;
    hide CutsWrite;
    hide CutsCheck;
    hide TrimOn;
    match step
    case Memory(inner) =>
      MemorySimulates(f, period, d, s, inner);
      taken := inner;
    case WriteBytes(start) =>
      WriteSimulates(f, period, d, s, start);
      taken := Write(start);
    case FailWriting(start, cut) =>
      var count, torn := CutWriteSimulates(f, period, d, s, start, cut);
      taken := FailAppending(start, count, torn);
    case CrashWriting(start, cut) =>
      var count, torn := CutWriteSimulates(f, period, d, s, start, cut);
      taken := Crash(DuringWake(start, count, torn));
    case CheckBytes(start, through) =>
      CheckSimulates(f, period, d, s, start, through);
      taken := Check(start, through);
    case RaiseChecking(start, through) =>
      OnDiskHere(f, d, s, start);
      RaiseSimulates(f, period, d, s, start, through);
      taken := FailChecking(start, through);
    case CrashChecking(start, through, cut) =>
      OnDiskHere(f, d, s, start);
      var count, torn := CutCheckSimulates(f, period, d, s, start, through, cut);
      taken := Crash(DuringCheck(start, through, count, torn));
    case ExportBytes(start, conflict, selected, history) =>
      ExportSimulates(f, period, d, s, start, conflict, selected, history);
      taken := Export(start, conflict, selected, history);
  }

  lemma OnDiskHere(f: Format, d: Volume, s: State, start: Moment)
    requires Simulates(f, d, s)
    ensures start in s.files <==> start in d.disk
  {
  }

  // ---------------------------------------------------------------- runs over bytes

  ghost predicate CanAll(f: Format, period: Period, d: Volume, steps: seq<DiskStep>)
    decreases |steps|
  {
    steps == [] || (Can(f, period, d, steps[0]) && CanAll(f, period, NextOn(f, period, d, steps[0]), steps[1..]))
  }

  ghost function AfterOn(f: Format, period: Period, d: Volume, steps: seq<DiskStep>): Volume
    requires CanAll(f, period, d, steps)
    decreases |steps|
  {
    if steps == [] then d else AfterOn(f, period, NextOn(f, period, d, steps[0]), steps[1..])
  }

  predicate NeverDrops(period: Period, steps: seq<DiskStep>) {
    forall i :: 0 <= i < |steps| ==> !Drops(period, steps[i])
  }

  /** Every run over bytes is a run of the machine, which ends with the files the disk then stores. */
  lemma {:induction false} RunSimulates(f: Format, period: Period, d: Volume, s: State, steps: seq<DiskStep>)
    returns (run: seq<Step>)
    requires Sound(f) && LiveSafety.Safe(period, s) && Simulates(f, d, s) && CanAll(f, period, d, steps)
    ensures Runs(period, s, run) && Simulates(f, AfterOn(f, period, d, steps), StateAfter(period, s, run))
    ensures NeverDrops(period, steps) ==> LiveLoss.NeverDiscards(period, run)
    decreases |steps|
  {
    hide Sound;
    hide LiveSafety.Safe;
    hide Simulates;
    hide Can;
    hide NextOn;
    hide Enabled;
    hide Next;
    hide Drops;
    hide LiveLoss.Discards;
    if steps == [] {
      return [];
    }
    var taken := StepSimulates(f, period, d, s, steps[0]);
    LiveSafety.SafeStep(period, s, taken);
    var rest := RunSimulates(f, period, NextOn(f, period, d, steps[0]), Next(period, s, taken), steps[1..]);
    run := [taken] + rest;
    assert run[1..] == rest;
    if NeverDrops(period, steps) {
      assert forall i :: 0 <= i < |steps[1..]| ==> steps[1..][i] == steps[i + 1];
      assert !Drops(period, steps[0]);
      assert forall step :: step in run ==> step == taken || step in rest;
    }
  }

  /** A disk that holds sound files, with what is in memory sound too. */
  ghost predicate SoundOn(f: Format, period: Period, d: Volume, files: Files) {
    OnDisk(f, files, d.disk) && LiveSafety.Safe(period, Seen(d, files))
  }

  /** Over every run of the exporter from a sound disk, an empty one for instance, whatever it
      interleaves and at whatever byte a crash cuts an append: the keys read back from each file's bytes
      are strictly increasing and of the file's period, and a remembered key is the last of them. */
  lemma DiskStaysSound(f: Format, period: Period, d: Volume, files: Files, steps: seq<DiskStep>, start: Moment)
    requires Sound(f) && SoundOn(f, period, d, files) && CanAll(f, period, d, steps)
    requires start in AfterOn(f, period, d, steps).disk
    ensures var after := AfterOn(f, period, d, steps);
            var keys := KeysOn(f, after.disk[start]);
            && Increasing(keys) && (forall k :: k in keys ==> Home(period, k) == start)
            && (start in after.last ==> after.last[start] == LastOf(keys))
  {
    hide KeysOn;
    hide Sound;
    hide Stores;
    hide Can;
    hide CanAll;
    hide AfterOn;
    hide Home;
    var s := Seen(d, files);
    var run := RunSimulates(f, period, d, s, steps);
    LiveLoss.FilesStaySound(period, s, run);
    var end := StateAfter(period, s, run);
    assert start in end.files && LiveSafety.FileOk(period, start, end.files[start]);
    KeysAreStored(f, end.files[start], AfterOn(f, period, d, steps).disk[start]);
    if start in end.last {
      assert LiveSafety.LastOk(end.files, start, end.last[start]);
    }
  }

  /** The keys read back from a period's file, none when there is no file. */
  function KeysAt(f: Format, disk: map<Moment, Bytes>, start: Moment): seq<Key> {
    if start in disk then KeysOn(f, disk[start]) else []
  }

  /** Over every such run without a partial purge every notified record still stored is on its way, can
      be read back from its file's bytes, or sorts before the last key of its file and is of a period
      reported late. */
  lemma DiskLosesNothing(f: Format, period: Period, d: Volume, files: Files, steps: seq<DiskStep>, key: Key)
    requires Sound(f) && SoundOn(f, period, d, files) && LiveSafety.NoLoss(period, Seen(d, files))
    requires CanAll(f, period, d, steps) && NeverDrops(period, steps)
    requires key in AfterOn(f, period, d, steps).notified
    ensures var after := AfterOn(f, period, d, steps);
            var held := KeysAt(f, after.disk, Home(period, key));
            || LiveSafety.Covers(period, after.pending, key) || LiveSafety.Covers(period, after.working, key)
            || key in held
            || (Home(period, key) in after.late && held != [] && AtMost(key, held[|held| - 1]))
  {
    hide KeysOn;
    hide Sound;
    hide Stores;
    hide Can;
    hide CanAll;
    hide AfterOn;
    hide Home;
    var s := Seen(d, files);
    var run := RunSimulates(f, period, d, s, steps);
    LiveLoss.NothingIsLost(period, s, run);
    var end := StateAfter(period, s, run);
    assert LiveSafety.Accounted(period, end, key);
    var start := Home(period, key);
    if start in end.files {
      KeysAreStored(f, end.files[start], AfterOn(f, period, d, steps).disk[start]);
    }
  }

  /** A fresh exporter on an empty disk is sound. */
  lemma EmptyIsSound(f: Format, period: Period, db: set<Key>)
    ensures SoundOn(f, period, Volume(db, map[], map[], map[], map[], {}, {}), map[])
    ensures LiveSafety.NoLoss(period, Seen(Volume(db, map[], map[], map[], map[], {}, {}), map[]))
  {
  }

  // ---------------------------------------------------------------- a retry after a torn end

  /** A file that ends in part of a record: records, the header among them, and that part. */
  lemma TornApart(f: Format, file: File, bytes: Bytes) returns (before: seq<Bytes>, torn: Bytes)
    requires Sound(f) && Stores(f, file, bytes) && file.torn
    ensures Lines.AreRecords(f.grouping, before) && Lines.IsTorn(f.grouping, torn) && torn != []
    ensures bytes == Lines.Concat(before) + torn
  {
    hide Lines.IsTorn;
    hide Lines.IsRecord;
    EncodedRecords(f, file.records);
    var whole := Whole(f, file.records);
    if whole <= bytes && Lines.IsTorn(f.grouping, bytes[|whole|..]) && bytes != whole {
      before := (if f.header == [] then [] else [f.header]) + Encoded(f, file.records);
      torn := bytes[|whole|..];
      Torn.HeaderConcat(f.header, Encoded(f, file.records));
      assert bytes == whole + torn;
    } else {
      before, torn := [], bytes;
      HeaderTorn(f, bytes);
      assert bytes == Lines.Concat([]) + torn;
    }
  }

  /** A wake that remembers a key does not look at the file's end. After part of a record its first one
      is glued to that part, the others whole, exactly when the quotes of the part balance. Otherwise
      nothing it appends can be read back exactly when none of it holds a newline. */
  lemma RetryAfterTorn(f: Format, d: Volume, start: Moment, file: File) returns (before: seq<Bytes>, torn: Bytes)
    requires Sound(f) && start in d.disk && Stores(f, file, d.disk[start]) && file.torn
    requires start in d.last && start in d.working && FoundOn(d, start) != [] && WakeOn(f, d, start) != []
    ensures Lines.AreRecords(f.grouping, before) && d.disk[start] == Lines.Concat(before) + torn && torn != []
    ensures start in WriteOn(f, d, start).disk
    ensures var newer, after := Encoded(f, WakeOn(f, d, start)), WriteOn(f, d, start).disk[start];
            && after == d.disk[start] + Lines.Concat(newer)
            && (Lines.RecordsOf(f.grouping, after) == before + [torn + newer[0]] + newer[1..] <==>
                Lines.Balanced(f.grouping, torn))
            && (!Lines.Balanced(f.grouping, torn) ==>
                  (Lines.RecordsOf(f.grouping, after) == before <==> Torn.NoneHoldsNewline(newer)))
  {
    hide Sound;
    before, torn := TornApart(f, file, d.disk[start]);
    var keys := WakeOn(f, d, start);
    var newer := Encoded(f, keys);
    EncodedRecords(f, keys);
    hide WakeOn;
    hide FoundOn;
    hide Stores;
    hide Lines.IsTorn;
    hide Lines.AreRecords;
    hide Lines.RecordsOf;
    hide Encoded;
    hide Torn.NoneHoldsNewline;
    hide Lines.Concat;
    Torn.TornIsGlued(f.grouping, before, torn, newer);
    if !Lines.Balanced(f.grouping, torn) {
      Torn.SwallowedExactly(before, torn, newer);
    }
  }
}
