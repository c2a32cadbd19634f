/** Line files as bytes: how a file splits into records, where its complete records end, and why
    an append cut at any byte can be taken up again. */
module Lines {
  import opened Options

  newtype Byte = x: int | 0 <= x < 256
  type Bytes = seq<Byte>

  const NEWLINE: Byte := 10
  const QUOTE: Byte := 34

  // ---------------------------------------------------------------- physical lines

  /** The first newline at or after `start`, or the length when there is none. */
  function NewlineFrom(bytes: Bytes, start: nat): (at: nat)
    requires start <= |bytes|
    ensures start <= at <= |bytes|
    ensures at < |bytes| ==> bytes[at] == NEWLINE
    ensures forall i :: start <= i < at ==> bytes[i] != NEWLINE
    decreases |bytes| - start
  {
    if start == |bytes| || bytes[start] == NEWLINE then start else NewlineFrom(bytes, start + 1)
  }

  /** The lines of a file, each with its newline; what follows the last newline is none of them. */
  function SplitLines(file: Bytes): seq<Bytes>
    decreases |file|
  {
    var at := NewlineFrom(file, 0);
    if at == |file| then [] else [file[..at + 1]] + SplitLines(file[at + 1..])
  }

  lemma FirstLine(file: Bytes, at: nat)
    requires at < |file| && file[at] == NEWLINE && forall i :: 0 <= i < at ==> file[i] != NEWLINE
    ensures SplitLines(file) == [file[..at + 1]] + SplitLines(file[at + 1..])
  {
    assert NewlineFrom(file, 0) == at;
  }

  lemma NextLine(pending: Bytes, start: nat, newline: nat, rest: Bytes)
    requires start <= newline < |pending| && newline == NewlineFrom(pending, start)
    ensures SplitLines(pending[start..] + rest)
              == [pending[start..newline + 1]] + SplitLines(pending[newline + 1..] + rest)
  {
    hide SplitLines;
    hide NewlineFrom;
    var file, at := pending[start..] + rest, newline - start;
    FirstLine(file, at);
    assert file[..at + 1] == pending[start..newline + 1];
    assert file[at + 1..] == pending[newline + 1..] + rest;
  }

  lemma NoLine(pending: Bytes)
    requires NewlineFrom(pending, 0) == |pending|
    ensures SplitLines(pending) == []
  {
  }

  lemma ChunkJoins(pending: Bytes, file: Bytes, at: nat, end: nat)
    requires at <= end <= |file|
    ensures pending + file[at..] == pending + file[at..end] + file[end..]
  {
  }

  /** Reading in chunks of any size finds the same lines. */
  method PhysicalLines(file: Bytes, chunk: nat) returns (lines: seq<Bytes>)
    requires 0 < chunk
    ensures lines == SplitLines(file)
  {
    hide SplitLines;
    hide NewlineFrom;
    lines := [];
    var pending: Bytes, at := [], 0;
    assert [] + file[0..] == file;
    while at < |file|
      invariant 0 <= at <= |file|
      invariant NewlineFrom(pending, 0) == |pending|
      invariant lines + SplitLines(pending + file[at..]) == SplitLines(file)
    {
      var end := if at + chunk <= |file| then at + chunk else |file|;
      ChunkJoins(pending, file, at, end);
      pending := pending + file[at..end];
      at := end;
      lines, pending := TakeLines(lines, pending, file[at..]);
    }
    assert pending + file[at..] == pending;
    NoLine(pending);
  }

  /** Takes every complete line off the front of what is pending. */
  method TakeLines(lines: seq<Bytes>, pending: Bytes, ghost rest: Bytes) returns (taken: seq<Bytes>, left: Bytes)
    ensures NewlineFrom(left, 0) == |left|
    ensures taken + SplitLines(left + rest) == lines + SplitLines(pending + rest)
  {
    hide SplitLines;
    hide NewlineFrom;
    taken := lines;
    var start := 0;
    var newline := NewlineFrom(pending, 0);
    assert pending[0..] == pending;
    while newline < |pending|
      invariant 0 <= start <= |pending| && newline == NewlineFrom(pending, start)
      invariant taken + SplitLines(pending[start..] + rest) == lines + SplitLines(pending + rest)
      decreases |pending| - start
    {
      NextLine(pending, start, newline, rest);
      taken := taken + [pending[start..newline + 1]];
      start := newline + 1;
      newline := NewlineFrom(pending, start);
    }
    left := pending[start..];
  }

  // ---------------------------------------------------------------- records

  /** How lines make records: every line by itself, or, for text whose quotes may enclose newlines,
      as many lines as it takes until the quotes come out even. */
  datatype Grouping = PerLine | QuoteParity

  function Quotes(bytes: Bytes): nat {
    if bytes == [] then 0 else (if bytes[0] == QUOTE then 1 else 0) + Quotes(bytes[1..])
  }

  lemma {:induction false} QuotesJoin(a: Bytes, b: Bytes)
    ensures Quotes(a + b) == Quotes(a) + Quotes(b)
  {
    if a == [] {
      assert a + b == b;
    } else {
      assert (a + b)[1..] == a[1..] + b;
      QuotesJoin(a[1..], b);
    }
  }

  predicate Balanced(grouping: Grouping, bytes: Bytes) {
    grouping == PerLine || Quotes(bytes) % 2 == 0
  }

  function Group(grouping: Grouping, pending: Bytes, lines: seq<Bytes>): seq<Bytes>
    decreases |lines|
  {
    if lines == [] then []
    else
      var joined := pending + lines[0];
      if Balanced(grouping, joined) then [joined] + Group(grouping, [], lines[1..])
      else Group(grouping, joined, lines[1..])
  }

  /** The complete records of a file. */
  function RecordsOf(grouping: Grouping, file: Bytes): seq<Bytes> {
    Group(grouping, [], SplitLines(file))
  }

  method CountQuotes(bytes: Bytes) returns (count: nat)
    ensures count == Quotes(bytes)
  {
    count := 0;
    for i := 0 to |bytes|
      invariant Quotes(bytes) == count + Quotes(bytes[i..])
    {
      assert bytes[i..][1..] == bytes[i + 1..];
      if bytes[i] == QUOTE {
        count := count + 1;
      }
    }
  }

  method SplitRecords(grouping: Grouping, lines: seq<Bytes>) returns (records: seq<Bytes>)
    ensures records == Group(grouping, [], lines)
  {
    records := [];
    var pending: Bytes := [];
    for i := 0 to |lines|
      invariant records + Group(grouping, pending, lines[i..]) == Group(grouping, [], lines)
    {
      assert lines[i..][0] == lines[i] && lines[i..][1..] == lines[i + 1..];
      pending := pending + lines[i];
      var quotes := CountQuotes(pending);
      if grouping == PerLine || quotes % 2 == 0 {
        records := records + [pending];
        pending := [];
      }
    }
  }

  /** What an encoder may write for one record: a newline ends it, its quotes balance there, and at
      no newline before. */
  ghost predicate IsRecord(grouping: Grouping, record: Bytes) {
    && record != [] && record[|record| - 1] == NEWLINE
    && Balanced(grouping, record)
    && forall i :: 0 <= i < |record| - 1 && record[i] == NEWLINE ==> !Balanced(grouping, record[..i + 1])
  }

  ghost predicate AreRecords(grouping: Grouping, records: seq<Bytes>) {
    forall i :: 0 <= i < |records| ==> IsRecord(grouping, records[i])
  }

  /** What an append cut in the middle leaves: a prefix of one more record, short of its end. */
  ghost predicate IsTorn(grouping: Grouping, torn: Bytes) {
    torn == [] || exists record :: IsRecord(grouping, record) && torn <= record && torn != record
  }

  function Concat(records: seq<Bytes>): Bytes {
    if records == [] then [] else records[0] + Concat(records[1..])
  }

  lemma GroupTakes(grouping: Grouping, pending: Bytes, line: Bytes, lines: seq<Bytes>)
    ensures Group(grouping, pending, [line] + lines)
              == if Balanced(grouping, pending + line) then [pending + line] + Group(grouping, [], lines)
                 else Group(grouping, pending + line, lines)
  {
    hide Balanced;
    assert ([line] + lines)[1..] == lines;
  }

  lemma PiecesJoin(record: Bytes, from: nat, to: nat)
    requires from <= to <= |record|
    ensures record[..from] + record[from..to] == record[..to]
  {
  }

  /** Grouping takes one record off the front, from any newline inside it. */
  lemma {:induction false} GroupOne(grouping: Grouping, record: Bytes, from: nat, rest: Bytes)
    requires IsRecord(grouping, record) && from < |record|
    ensures Group(grouping, record[..from], SplitLines(record[from..] + rest))
              == [record] + Group(grouping, [], SplitLines(rest))
    decreases |record| - from
  {
    hide Group;
    hide SplitLines;
    hide NewlineFrom;
    hide Balanced;
    var at := NewlineFrom(record, from);
    assert record[|record| - 1] == NEWLINE;
    NextLine(record, from, at, rest);
    GroupTakes(grouping, record[..from], record[from..at + 1], SplitLines(record[at + 1..] + rest));
    PiecesJoin(record, from, at + 1);
    if at == |record| - 1 {
      assert record[..at + 1] == record && record[at + 1..] + rest == rest;
    } else {
      GroupOne(grouping, record, at + 1, rest);
    }
  }

  lemma {:induction false} TornGivesNothing(grouping: Grouping, record: Bytes, torn: Bytes, from: nat)
    requires IsRecord(grouping, record) && torn <= record && torn != record && from <= |torn|
    ensures Group(grouping, torn[..from], SplitLines(torn[from..])) == []
    decreases |torn| - from
  {
    hide SplitLines;
    hide NewlineFrom;
    hide Balanced;
    var at := NewlineFrom(torn, from);
    if at == |torn| {
      NoLineFrom(torn, from);
    } else {
      hide Group;
      NextLine(torn, from, at, []);
      assert torn[from..] + [] == torn[from..] && torn[at + 1..] + [] == torn[at + 1..];
      GroupTakes(grouping, torn[..from], torn[from..at + 1], SplitLines(torn[at + 1..]));
      PiecesJoin(torn, from, at + 1);
      assert torn[..at + 1] == record[..at + 1];
      assert record[at] == NEWLINE && at < |record| - 1;
      TornGivesNothing(grouping, record, torn, at + 1);
    }
  }

  lemma NoLineFrom(bytes: Bytes, from: nat)
    requires from <= |bytes| && NewlineFrom(bytes, from) == |bytes|
    ensures SplitLines(bytes[from..]) == []
  {
    var at := NewlineFrom(bytes[from..], 0);
  }

  lemma TornHoldsNoRecord(grouping: Grouping, torn: Bytes)
    requires IsTorn(grouping, torn)
    ensures RecordsOf(grouping, torn) == []
  {
    hide IsRecord;
    if torn == [] {
      NoLine(torn);
    } else {
      var record :| IsRecord(grouping, record) && torn <= record && torn != record;
      TornGivesNothing(grouping, record, torn, 0);
      assert torn[..0] == [] && torn[0..] == torn;
    }
  }

  lemma RecordFirst(grouping: Grouping, record: Bytes, rest: Bytes)
    requires IsRecord(grouping, record)
    ensures RecordsOf(grouping, record + rest) == [record] + RecordsOf(grouping, rest)
  {
    hide Group;
    hide SplitLines;
    GroupOne(grouping, record, 0, rest);
    assert record[..0] == [] && record[0..] == record;
  }

  /** Reading back a file gives exactly the records written to it, whatever part of one more
      follows them. */
  lemma {:induction false} SplitInvertsWrite(grouping: Grouping, records: seq<Bytes>, torn: Bytes)
    requires AreRecords(grouping, records) && IsTorn(grouping, torn)
    ensures RecordsOf(grouping, Concat(records) + torn) == records
    decreases |records|
  {
    hide RecordsOf;
    hide IsRecord;
    hide IsTorn;
    if records == [] {
      assert Concat(records) + torn == torn;
      TornHoldsNoRecord(grouping, torn);
    } else {
      var rest := Concat(records[1..]) + torn;
      RecordFirst(grouping, records[0], rest);
      assert records[0] + rest == Concat(records) + torn;
      SplitInvertsWrite(grouping, records[1..], torn);
    }
  }

  // ---------------------------------------------------------------- where a file ends

  /** What reading a file's end finds, or the error of a file with another header. */
  datatype TailResult<K> = Tail(last: Option<K>, length: nat) | OtherHeader

  function TailOf<K>(grouping: Grouping, header: Bytes, key: Bytes -> K, file: Bytes): TailResult<K> {
    var records := RecordsOf(grouping, file);
    if header != [] && records != [] && records[0] != header then OtherHeader
    else
      var body := if header != [] && records != [] then records[1..] else records;
      var last := LastKey(key, body);
      var length := |Concat(body)|;
      Tail(last, if last.Some? || |file| >= |header| then length + |header| else length)
  }

  method ReadTail<K>(grouping: Grouping, header: Bytes, key: Bytes -> K, file: Bytes, chunk: nat)
    returns (result: TailResult<K>)
    requires 0 < chunk
    ensures result == TailOf(grouping, header, key, file)
  {
    hide Group;
    hide SplitLines;
    var lines := PhysicalLines(file, chunk);
    var records := SplitRecords(grouping, lines);
    if header != [] && records != [] && records[0] != header {
      return OtherHeader;
    }
    var body := if header != [] && records != [] then records[1..] else records;
    var last, length := LastAndLength(key, body);
    return Tail(last, if last.Some? || |file| >= |header| then length + |header| else length);
  }

  method LastAndLength<K>(key: Bytes -> K, body: seq<Bytes>) returns (last: Option<K>, length: nat)
    ensures last == LastKey(key, body) && length == |Concat(body)|
  {
    last, length := None, 0;
    for i := 0 to |body|
      invariant length + |Concat(body[i..])| == |Concat(body)|
      invariant last == LastKey(key, body[..i])
    {
      assert body[i..][0] == body[i] && body[i..][1..] == body[i + 1..];
      assert body[..i + 1][i] == body[i];
      last := Some(key(body[i]));
      length := length + |body[i]|;
    }
    assert body[..|body|] == body;
  }

  function LastKey<K>(key: Bytes -> K, records: seq<Bytes>): Option<K> {
    if records == [] then None else Some(key(records[|records| - 1]))
  }

  ghost predicate HeaderOk(grouping: Grouping, header: Bytes) {
    header == [] || IsRecord(grouping, header)
  }

  lemma ConcatOne(header: Bytes, records: seq<Bytes>)
    ensures Concat([header] + records) == header + Concat(records)
  {
  }

  lemma RecordsAfterHeader(grouping: Grouping, header: Bytes, records: seq<Bytes>, torn: Bytes)
    requires HeaderOk(grouping, header) && AreRecords(grouping, records) && IsTorn(grouping, torn)
    ensures RecordsOf(grouping, header + Concat(records) + torn) == (if header == [] then [] else [header]) + records
  {
    hide RecordsOf;
    hide IsRecord;
    hide IsTorn;
    if header == [] {
      assert header + Concat(records) == Concat(records) && [] + records == records;
      SplitInvertsWrite(grouping, records, torn);
    } else {
      ConcatOne(header, records);
      assert AreRecords(grouping, [header] + records);
      SplitInvertsWrite(grouping, [header] + records, torn);
    }
  }

  /** A file that ends in part of a record: its tail is the last complete key and the exact length
      of its header and complete records. */
  lemma TailAfterRecords<K>(grouping: Grouping, header: Bytes, key: Bytes -> K, records: seq<Bytes>, torn: Bytes)
    requires HeaderOk(grouping, header) && AreRecords(grouping, records) && IsTorn(grouping, torn)
    ensures TailOf(grouping, header, key, header + Concat(records) + torn)
              == Tail(LastKey(key, records), |header + Concat(records)|)
  {
    RecordsAfterHeader(grouping, header, records, torn);
    hide RecordsOf;
    hide HeaderOk;
    hide AreRecords;
    hide IsTorn;
    hide Concat;
    assert ([header] + records)[1..] == records && [] + records == records;
  }

  /** A file cut inside its header holds nothing. */
  lemma TailInsideHeader<K>(grouping: Grouping, header: Bytes, key: Bytes -> K, torn: Bytes)
    requires IsRecord(grouping, header) && torn <= header && torn != header
    ensures TailOf(grouping, header, key, torn) == Tail(None, 0)
  {
    TornGivesNothing(grouping, header, torn, 0);
    assert torn[..0] == [] && torn[0..] == torn;
  }

  /** The bytes `append` leaves: the header first when the file was empty. */
  function AppendTo(header: Bytes, file: Bytes, records: seq<Bytes>): Bytes {
    file + (if file == [] then header else []) + Concat(records)
  }

  lemma {:induction false} ConcatJoins(a: seq<Bytes>, b: seq<Bytes>)
    ensures Concat(a + b) == Concat(a) + Concat(b)
  {
    if a == [] {
      assert a + b == b;
    } else {
      assert (a + b)[1..] == a[1..] + b;
      ConcatJoins(a[1..], b);
    }
  }

  /** Every cut of some records leaves whole ones and part of the next. */
  lemma {:induction false} CutRecords(grouping: Grouping, records: seq<Bytes>, cut: nat)
    returns (count: nat, torn: Bytes)
    requires AreRecords(grouping, records) && cut <= |Concat(records)|
    ensures count <= |records| && IsTorn(grouping, torn)
    ensures Concat(records)[..cut] == Concat(records[..count]) + torn
    ensures torn != [] ==> count < |records| && torn <= records[count] && torn != records[count]
    decreases |records|
  {
    if records == [] {
      return 0, [];
    }
    var first, rest := records[0], records[1..];
    if cut < |first| {
      torn := first[..cut];
      assert torn <= first && torn != first;
      assert Concat(records)[..cut] == [] + torn;
      return 0, torn;
    }
    count, torn := CutRecords(grouping, rest, cut - |first|);
    assert Concat(records)[..cut] == first + Concat(rest)[..cut - |first|];
    assert records[..count + 1][1..] == rest[..count];
    count := count + 1;
  }

  /** A file cut at any byte, and the same file once its tail is truncated and the rest appended. */
  ghost predicate Recovers<K>(grouping: Grouping, header: Bytes, key: Bytes -> K, records: seq<Bytes>, cut: Bytes,
                              count: nat)
    requires count <= |records|
  {
    match TailOf(grouping, header, key, cut)
    case OtherHeader => false
    case Tail(last, length) =>
      && length <= |cut|
      && last == LastKey(key, records[..count])
      && AppendTo(header, cut[..length], records[count..]) == header + Concat(records)
  }

  /** Torn appends lose nothing: wherever a write of a file stops, its tail tells how many records
      are complete, and truncating there and appending the others gives the very bytes an
      uninterrupted write would have given. */
  lemma CutAnywhereRecovers<K>(grouping: Grouping, header: Bytes, key: Bytes -> K, records: seq<Bytes>, cut: nat)
    returns (count: nat)
    requires HeaderOk(grouping, header) && AreRecords(grouping, records)
    requires cut <= |header + Concat(records)|
    ensures count <= |records|
    ensures Recovers(grouping, header, key, records, (header + Concat(records))[..cut], count)
  {
    if cut < |header| {
      count := 0;
      CutInHeader(grouping, header, key, records, cut);
    } else {
      var torn: Bytes;
      count, torn := CutRecords(grouping, records, cut - |header|);
      assert (header + Concat(records))[..cut] == header + Concat(records)[..cut - |header|];
      assert header + Concat(records)[..cut - |header|] == header + Concat(records[..count]) + torn;
      CutInRecord(grouping, header, key, records, count, torn);
    }
  }

  lemma CutInHeader<K>(grouping: Grouping, header: Bytes, key: Bytes -> K, records: seq<Bytes>, cut: nat)
    requires IsRecord(grouping, header) && cut < |header|
    ensures Recovers(grouping, header, key, records, (header + Concat(records))[..cut], 0)
  {
    hide TailOf;
    var file := (header + Concat(records))[..cut];
    assert file == header[..cut];
    TailInsideHeader(grouping, header, key, file);
    assert records[0..] == records && records[..0] == [] && file[..0] == [];
    assert AppendTo(header, [], records) == header + Concat(records);
  }

  lemma CutInRecord<K>(grouping: Grouping, header: Bytes, key: Bytes -> K, records: seq<Bytes>, count: nat,
                       torn: Bytes)
    requires HeaderOk(grouping, header) && AreRecords(grouping, records)
    requires count <= |records| && IsTorn(grouping, torn)
    ensures Recovers(grouping, header, key, records, header + Concat(records[..count]) + torn, count)
  {
    hide TailOf;
    hide IsRecord;
    hide IsTorn;
    TailAfterRecords(grouping, header, key, records[..count], torn);
    var complete := header + Concat(records[..count]);
    assert (complete + torn)[..|complete|] == complete;
    ConcatJoins(records[..count], records[count..]);
    assert records[..count] + records[count..] == records;
    assert complete + Concat(records[count..]) == header + Concat(records);
    if complete == [] {
      assert header == [];
    }
    assert AppendTo(header, complete, records[count..]) == header + Concat(records);
  }

  // ---------------------------------------------------------------- files of another header

  lemma {:induction false} FirstRecordIsPrefix(grouping: Grouping, pending: Bytes, rest: Bytes)
    requires Group(grouping, pending, SplitLines(rest)) != []
    ensures Group(grouping, pending, SplitLines(rest))[0] <= pending + rest
    decreases |rest|
  {
    hide NewlineFrom;
    hide Balanced;
    var at := NewlineFrom(rest, 0);
    if at == |rest| {
      NoLine(rest);
    } else {
      var line, left := rest[..at + 1], rest[at + 1..];
      FirstLine(rest, at);
      GroupTakes(grouping, pending, line, SplitLines(left));
      assert pending + rest == (pending + line) + left;
      if !Balanced(grouping, pending + line) {
        FirstRecordIsPrefix(grouping, pending + line, left);
      }
    }
  }

  /** The header is checked against the first complete record. A file long enough to hold it but
      without one is taken to start with it, and never does: that is exactly when the length found
      counts a header the file lacks. */
  lemma HeaderCheckNeedsARecord<K>(grouping: Grouping, header: Bytes, key: Bytes -> K, file: Bytes)
    requires IsRecord(grouping, header) && |header| <= |file|
    requires TailOf(grouping, header, key, file).Tail?
    ensures header <= file <==> RecordsOf(grouping, file) != []
    ensures TailOf(grouping, header, key, file).length >= |header|
  {
    if header <= file {
      RecordFirst(grouping, header, file[|header|..]);
      assert header + file[|header|..] == file;
    }
    hide Group;
    hide SplitLines;
    if RecordsOf(grouping, file) != [] {
      FirstRecordIsPrefix(grouping, [], file);
      assert [] + file == file;
    }
  }

  /** What that costs: truncated at its tail and appended to, such a file starts with the header
      exactly when it held a complete record. */
  lemma HeaderStaysMissing<K>(grouping: Grouping, header: Bytes, key: Bytes -> K, file: Bytes, records: seq<Bytes>)
    requires IsRecord(grouping, header) && |header| <= |file|
    requires TailOf(grouping, header, key, file).Tail? && TailOf(grouping, header, key, file).length <= |file|
    ensures var tail := TailOf(grouping, header, key, file);
            header <= AppendTo(header, file[..tail.length], records) <==> RecordsOf(grouping, file) != []
  {
    hide RecordsOf;
    hide IsRecord;
    HeaderCheckNeedsARecord(grouping, header, key, file);
    var kept := file[..TailOf(grouping, header, key, file).length];
    assert kept[..|header|] == file[..|header|];
  }

  /** Two bytes of a header and three of something else: the check passes and counts the header. */
  lemma HeaderlessPasses<K>(key: Bytes -> K)
    ensures IsRecord(PerLine, [97, NEWLINE])
    ensures TailOf(PerLine, [97, NEWLINE], key, [98, 98, 98]) == Tail(None, 2)
    ensures forall records :: !([97, NEWLINE] <= AppendTo([97, NEWLINE], [98, 98, 98][..2], records))
  {
    var file: Bytes := [98, 98, 98];
    assert NewlineFrom(file, 0) == 3;
    NoLine(file);
    assert file[..2][0] == 98;
  }
}
