/** CSV records: every row is a record the quote-parity split gives back, and its key reads back. */
module Csv {
  import opened Options
  import opened Lines

  const COMMA: Byte := 44
  const RETURN: Byte := 13

  type Cell = Bytes

  // ---------------------------------------------------------------- encoding

  /** Cells quoted under section 2 of RFC 4180: those holding a separator, a quote or a line break. */
  predicate NeedsQuotes(cell: Cell) {
    COMMA in cell || QUOTE in cell || NEWLINE in cell || RETURN in cell
  }

  function Doubled(cell: Cell): Bytes {
    if cell == [] then []
    else (if cell[0] == QUOTE then [QUOTE, QUOTE] else [cell[0]]) + Doubled(cell[1..])
  }

  function Field(cell: Cell): Bytes {
    if NeedsQuotes(cell) then [QUOTE] + Doubled(cell) + [QUOTE] else cell
  }

  function Fields(cells: seq<Cell>): Bytes {
    if cells == [] then []
    else if |cells| == 1 then Field(cells[0])
    else Field(cells[0]) + [COMMA] + Fields(cells[1..])
  }

  /** One row's line. A lone empty cell is written quoted, so its line is not blank. */
  function EncodeRow(cells: seq<Cell>): Bytes {
    (if cells == [[]] then [QUOTE, QUOTE] else Fields(cells)) + [NEWLINE]
  }

  // ---------------------------------------------------------------- quote parity

  lemma {:induction false} NoQuotes(bytes: Bytes)
    requires QUOTE !in bytes
    ensures Quotes(bytes) == 0
  {
    if bytes != [] {
      assert forall b :: b in bytes[1..] ==> b in bytes;
      NoQuotes(bytes[1..]);
    }
  }

  /** Every newline in `bytes` sits inside quotes, when `before` quotes come ahead of it, and the
      quotes balance at the end. */
  ghost predicate Enclosed(before: nat, bytes: Bytes) {
    && (before + Quotes(bytes)) % 2 == 0
    && forall i :: 0 <= i < |bytes| && bytes[i] == NEWLINE ==> (before + Quotes(bytes[..i + 1])) % 2 == 1
  }

  lemma EnclosedJoin(before: nat, a: Bytes, b: Bytes)
    requires before % 2 == 0 && Enclosed(before, a) && Enclosed(0, b)
    ensures Enclosed(before, a + b)
  {
    QuotesJoin(a, b);
    forall i | 0 <= i < |a + b| && (a + b)[i] == NEWLINE
      ensures (before + Quotes((a + b)[..i + 1])) % 2 == 1
    {
      if i < |a| {
        assert (a + b)[..i + 1] == a[..i + 1];
      } else {
        assert (a + b)[..i + 1] == a + b[..i + 1 - |a|];
        QuotesJoin(a, b[..i + 1 - |a|]);
      }
    }
  }

  /** Doubling every quote leaves each newline after an even number of them. */
  lemma {:induction false} DoubledIsEven(cell: Cell, i: nat)
    requires i < |Doubled(cell)| && Doubled(cell)[i] == NEWLINE
    ensures Quotes(Doubled(cell)[..i + 1]) % 2 == 0
    decreases |cell|
  {
    var unit := if cell[0] == QUOTE then [QUOTE, QUOTE] else [cell[0]];
    var rest := Doubled(cell[1..]);
    assert Doubled(cell) == unit + rest;
    if i < |unit| {
      assert Doubled(cell)[..i + 1] == [cell[0]];
      assert [cell[0]][1..] == [];
    } else {
      DoubledIsEven(cell[1..], i - |unit|);
      assert Doubled(cell)[..i + 1] == unit + rest[..i + 1 - |unit|];
      QuotesJoin(unit, rest[..i + 1 - |unit|]);
      UnitIsEven(cell[0]);
    }
  }

  lemma UnitIsEven(byte: Byte)
    ensures Quotes(if byte == QUOTE then [QUOTE, QUOTE] else [byte]) % 2 == 0
  {
    OneQuote();
    if byte != QUOTE {
      NoQuotes([byte]);
    }
  }

  lemma {:induction false} DoubledBalances(cell: Cell)
    ensures Quotes(Doubled(cell)) % 2 == 0
  {
    if cell != [] {
      DoubledBalances(cell[1..]);
      UnitIsEven(cell[0]);
      QuotesJoin(if cell[0] == QUOTE then [QUOTE, QUOTE] else [cell[0]], Doubled(cell[1..]));
    }
  }

  lemma OneQuote()
    ensures Quotes([QUOTE]) == 1 && Quotes([QUOTE, QUOTE]) == 2 && Quotes([COMMA]) == 0 && Quotes([NEWLINE]) == 0
  {
    assert [QUOTE, QUOTE][1..] == [QUOTE];
  }

  lemma FieldIsEnclosed(cell: Cell)
    ensures Enclosed(0, Field(cell))
  {
    if NeedsQuotes(cell) {
      var body := Doubled(cell);
      var field := [QUOTE] + body + [QUOTE];
      OneQuote();
      DoubledBalances(cell);
      QuotesJoin([QUOTE], body);
      QuotesJoin([QUOTE] + body, [QUOTE]);
      forall i | 0 <= i < |field| && field[i] == NEWLINE ensures Quotes(field[..i + 1]) % 2 == 1 {
        assert 1 <= i <= |body| && body[i - 1] == NEWLINE;
        DoubledIsEven(cell, i - 1);
        assert field[..i + 1] == [QUOTE] + body[..i];
        QuotesJoin([QUOTE], body[..i]);
      }
    } else {
      NoQuotes(cell);
    }
  }

  lemma {:induction false} FieldsAreEnclosed(cells: seq<Cell>)
    ensures Enclosed(0, Fields(cells))
  {
    if cells != [] {
      FieldIsEnclosed(cells[0]);
      if |cells| > 1 {
        FieldsAreEnclosed(cells[1..]);
        OneQuote();
        EnclosedJoin(0, Field(cells[0]), [COMMA]);
        EnclosedJoin(0, Field(cells[0]) + [COMMA], Fields(cells[1..]));
      }
    }
  }

  /** Every encoded row, whatever text its cells hold, is a record of the quote-parity split. */
  lemma RowIsRecord(cells: seq<Cell>)
    ensures IsRecord(QuoteParity, EncodeRow(cells))
  {
    var row := if cells == [[]] then [QUOTE, QUOTE] else Fields(cells);
    OneQuote();
    FieldsAreEnclosed(cells);
    QuotesJoin(row, [NEWLINE]);
    var record := EncodeRow(cells);
    forall i | 0 <= i < |record| - 1 && record[i] == NEWLINE ensures Quotes(record[..i + 1]) % 2 == 1 {
      assert record[..i + 1] == row[..i + 1];
    }
  }

  // ---------------------------------------------------------------- reading cells

  datatype Reading = Reading(cell: Cell, rest: Bytes)

  predicate EndsCell(byte: Byte) {
    byte == COMMA || byte == NEWLINE || byte == RETURN
  }

  function ReadPlain(bytes: Bytes): Reading {
    if bytes == [] || EndsCell(bytes[0]) then Reading([], bytes)
    else
      var later := ReadPlain(bytes[1..]);
      Reading([bytes[0]] + later.cell, later.rest)
  }

  /** A quoted cell ends at the first quote that no other follows, and two stand for one. */
  function ReadQuoted(bytes: Bytes): Reading {
    if bytes == [] then Reading([], [])
    else if bytes[0] == QUOTE && (|bytes| == 1 || bytes[1] != QUOTE) then Reading([], bytes[1..])
    else
      var later := ReadQuoted(if bytes[0] == QUOTE then bytes[2..] else bytes[1..]);
      Reading([bytes[0]] + later.cell, later.rest)
  }

  function ReadCell(bytes: Bytes): (reading: Reading)
    ensures |reading.rest| <= |bytes|
  {
    RestIsShorter(bytes);
    if bytes != [] && bytes[0] == QUOTE then ReadQuoted(bytes[1..]) else ReadPlain(bytes)
  }

  lemma {:induction false} RestIsShorter(bytes: Bytes)
    ensures |ReadPlain(bytes).rest| <= |bytes|
    ensures bytes != [] ==> |ReadQuoted(bytes[1..]).rest| <= |bytes|
  {
    if bytes != [] {
      RestIsShorter(bytes[1..]);
      if |bytes| > 2 && bytes[1] == QUOTE && bytes[2] == QUOTE {
        assert bytes[1..][2..] == bytes[2..][1..];
        RestIsShorter(bytes[2..]);
      }
    }
  }

  function ReadCells(bytes: Bytes): seq<Cell>
    decreases |bytes|
  {
    var reading := ReadCell(bytes);
    [reading.cell] +
    if reading.rest != [] && reading.rest[0] == COMMA then ReadCells(reading.rest[1..]) else []
  }

  /** The cells of one record under section 2 of RFC 4180. A blank line has none. */
  function ReadRow(record: Bytes): seq<Cell> {
    if record == [NEWLINE] then [] else ReadCells(record)
  }

  lemma {:induction false} PlainReads(cell: Cell, tail: Bytes)
    requires !NeedsQuotes(cell) && tail != [] && EndsCell(tail[0])
    ensures ReadPlain(cell + tail) == Reading(cell, tail)
  {
    if cell == [] {
      assert cell + tail == tail;
    } else {
      assert (cell + tail)[1..] == cell[1..] + tail && cell[0] in cell;
      assert forall b :: b in cell[1..] ==> b in cell;
      PlainReads(cell[1..], tail);
    }
  }

  lemma {:induction false} QuotedReads(cell: Cell, tail: Bytes)
    requires tail != [] && EndsCell(tail[0])
    ensures ReadQuoted(Doubled(cell) + [QUOTE] + tail) == Reading(cell, tail)
  {
    var bytes := Doubled(cell) + [QUOTE] + tail;
    if cell == [] {
      assert bytes == [QUOTE] + tail;
    } else {
      var unit := if cell[0] == QUOTE then [QUOTE, QUOTE] else [cell[0]];
      assert bytes == unit + (Doubled(cell[1..]) + [QUOTE] + tail);
      QuotedReads(cell[1..], tail);
      assert bytes[|unit|..] == Doubled(cell[1..]) + [QUOTE] + tail;
    }
  }

  lemma FieldReads(cell: Cell, tail: Bytes)
    requires tail != [] && EndsCell(tail[0])
    ensures ReadCell(Field(cell) + tail) == Reading(cell, tail)
  {
    hide ReadQuoted;
    hide ReadPlain;
    hide Doubled;
    var text := Field(cell) + tail;
    if NeedsQuotes(cell) {
      QuotedReads(cell, tail);
      assert text[0] == QUOTE && text[1..] == Doubled(cell) + [QUOTE] + tail;
    } else {
      PlainReads(cell, tail);
      assert text == cell + tail && (cell != [] ==> text[0] == cell[0] && cell[0] in cell);
    }
  }

  lemma {:induction false} FieldsRead(cells: seq<Cell>)
    requires cells != []
    ensures ReadCells(Fields(cells) + [NEWLINE]) == cells
  {
    hide Field;
    hide ReadCell;
    if |cells| == 1 {
      FieldReads(cells[0], [NEWLINE]);
    } else {
      var tail := [COMMA] + (Fields(cells[1..]) + [NEWLINE]);
      assert Fields(cells) + [NEWLINE] == Field(cells[0]) + tail;
      FieldReads(cells[0], tail);
      FieldsRead(cells[1..]);
    }
  }

  /** Every row reads back, whatever its cells hold: a line tells each of its cells, and a row of no
      cells from a row of one empty one. */
  lemma RowReadsBack(cells: seq<Cell>)
    ensures ReadRow(EncodeRow(cells)) == cells
  {
    if cells == [[]] {
      QuotedReads([], [NEWLINE]);
      var record := [QUOTE, QUOTE, NEWLINE];
      assert EncodeRow(cells) == record;
      assert record[1..] == Doubled([]) + [QUOTE] + [NEWLINE];
      assert ReadCell(record) == Reading([], [NEWLINE]);
    } else if cells != [] {
      FieldsRead(cells);
      assert ReadCell([NEWLINE]) == Reading([], [NEWLINE]);
      assert ReadCells([NEWLINE]) == [[]];
      assert Fields(cells) + [NEWLINE] != [NEWLINE];
    }
  }

  function EncodeRows(rows: seq<seq<Cell>>): seq<Bytes> {
    if rows == [] then [] else [EncodeRow(rows[0])] + EncodeRows(rows[1..])
  }

  lemma {:induction false} RowsAreRecords(rows: seq<seq<Cell>>)
    ensures AreRecords(QuoteParity, EncodeRows(rows))
  {
    if rows != [] {
      RowIsRecord(rows[0]);
      RowsAreRecords(rows[1..]);
    }
  }

  lemma {:induction false} RowsReadBack(rows: seq<seq<Cell>>, i: nat)
    requires i < |rows|
    ensures |EncodeRows(rows)| == |rows| && ReadRow(EncodeRows(rows)[i]) == rows[i]
  {
    hide ReadRow;
    hide EncodeRow;
    RowReadsBack(rows[i]);
    EncodedEach(rows, i);
  }

  lemma {:induction false} EncodedEach(rows: seq<seq<Cell>>, i: nat)
    requires i < |rows|
    ensures |EncodeRows(rows)| == |rows| && EncodeRows(rows)[i] == EncodeRow(rows[i])
  {
    hide EncodeRow;
    if |rows| > 1 {
      EncodedEach(rows[1..], if i > 0 then i - 1 else 0);
    }
  }

  /** A CSV file read back in chunks of any size, cut at newlines and grouped by quote parity gives
      exactly the encoded rows, whatever part of one more row follows them, and each gives its cells. */
  method ReadBack(rows: seq<seq<Cell>>, next: seq<Cell>, cut: nat, chunk: nat) returns (records: seq<Bytes>)
    requires 0 < chunk && cut < |EncodeRow(next)|
    ensures records == EncodeRows(rows)
    ensures |records| == |rows| && forall i :: 0 <= i < |rows| ==> ReadRow(records[i]) == rows[i]
  {
    var torn := EncodeRow(next)[..cut];
    var file := Concat(EncodeRows(rows)) + torn;
    var lines := PhysicalLines(file, chunk);
    records := SplitRecords(QuoteParity, lines);
    RowsAreRecords(rows);
    RowIsRecord(next);
    hide IsRecord;
    hide EncodeRow;
    assert torn <= EncodeRow(next) && torn != EncodeRow(next);
    SplitInvertsWrite(QuoteParity, EncodeRows(rows), torn);
    hide ReadRow;
    assert rows == [] ==> EncodeRows(rows) == [];
    forall i | 0 <= i < |rows| ensures |records| == |rows| && ReadRow(records[i]) == rows[i] {
      RowsReadBack(rows, i);
    }
  }

  /** A CSV file cut at any byte, inside a quoted cell or its header row too, is taken up again
      without loss. */
  lemma CsvSurvivesAnyCut<K>(columns: Option<seq<Cell>>, rows: seq<seq<Cell>>, key: Bytes -> K, cut: nat)
    returns (count: nat)
    requires var header := if columns.Some? then EncodeRow(columns.value) else [];
             cut <= |header + Concat(EncodeRows(rows))|
    ensures var header := if columns.Some? then EncodeRow(columns.value) else [];
            && count <= |EncodeRows(rows)|
            && Recovers(QuoteParity, header, key, EncodeRows(rows), (header + Concat(EncodeRows(rows)))[..cut], count)
  {
    hide EncodeRow;
    hide EncodeRows;
    hide IsRecord;
    hide Recovers;
    var header := if columns.Some? then EncodeRow(columns.value) else [];
    RowsAreRecords(rows);
    if columns.Some? {
      RowIsRecord(columns.value);
    }
    count := CutAnywhereRecovers(QuoteParity, header, key, EncodeRows(rows), cut);
  }

  // ---------------------------------------------------------------- keys

  function Stripped(line: Bytes): Bytes {
    if line != [] && (line[|line| - 1] == NEWLINE || line[|line| - 1] == RETURN) then Stripped(line[..|line| - 1])
    else line
  }

  function CommaFrom(bytes: Bytes, start: nat): (at: nat)
    requires start <= |bytes|
    ensures start <= at <= |bytes|
    decreases |bytes| - start
  {
    if start == |bytes| || bytes[start] == COMMA then start else CommaFrom(bytes, start + 1)
  }

  /** The first two cells of a line, `None` when it has fewer. */
  function KeyCells(line: Bytes): Option<(Bytes, Bytes)> {
    var text := Stripped(line);
    var first := CommaFrom(text, 0);
    if first == |text| then None
    else Some((text[..first], text[first + 1..CommaFrom(text, first + 1)]))
  }

  lemma {:induction false} CommaAt(bytes: Bytes, start: nat, at: nat)
    requires start <= at <= |bytes|
    requires forall i :: start <= i < at ==> bytes[i] != COMMA
    requires at < |bytes| ==> bytes[at] == COMMA
    ensures CommaFrom(bytes, start) == at
    decreases at - start
  {
    if start < at {
      CommaAt(bytes, start + 1, at);
    }
  }

  lemma {:induction false} StrippedKeeps(prefix: Bytes, rest: Bytes)
    requires prefix != [] && prefix[|prefix| - 1] != NEWLINE && prefix[|prefix| - 1] != RETURN
    ensures prefix <= Stripped(prefix + rest) <= prefix + rest
    ensures rest == [NEWLINE] ==> Stripped(prefix + rest) == prefix
    decreases |rest|
  {
    var line := prefix + rest;
    if rest != [] {
      assert line[..|line| - 1] == prefix + rest[..|rest| - 1];
      StrippedKeeps(prefix, rest[..|rest| - 1]);
    } else {
      assert line == prefix;
    }
    if rest == [NEWLINE] {
      assert line[..|line| - 1] == prefix;
    }
  }

  lemma CellEnds(before: Bytes, cell: Bytes, tail: Bytes)
    requires COMMA !in cell && (tail == [] || tail[0] == COMMA)
    ensures CommaFrom(before + cell + tail, |before|) == |before| + |cell|
  {
    var text := before + cell + tail;
    forall i | |before| <= i < |before| + |cell| ensures text[i] != COMMA {
      assert text[i] == cell[i - |before|] && cell[i - |before|] in cell;
    }
    CommaAt(text, |before|, |before| + |cell|);
  }

  lemma CellsBetweenCommas(a: Bytes, b: Bytes, tail: Bytes)
    requires COMMA !in a && COMMA !in b && (tail == [] || tail[0] == COMMA)
    ensures var text := a + [COMMA] + b + tail;
            CommaFrom(text, 0) == |a| && CommaFrom(text, |a| + 1) == |a| + 1 + |b|
  {
    FirstCellEnds(a, b, tail);
    assert |a + [COMMA]| == |a| + 1;
    CellEnds(a + [COMMA], b, tail);
  }

  lemma FirstCellEnds(a: Bytes, b: Bytes, tail: Bytes)
    requires COMMA !in a
    ensures CommaFrom(a + [COMMA] + b + tail, 0) == |a|
  {
    var text := a + [COMMA] + b + tail;
    forall i | 0 <= i < |a| ensures text[i] != COMMA {
      assert text[i] == a[i] && a[i] in a;
    }
    CommaAt(text, 0, |a|);
  }

  lemma CellSlices(a: Bytes, b: Bytes, tail: Bytes)
    ensures var text := a + [COMMA] + b + tail;
            text[..|a|] == a && text[|a| + 1..|a| + 1 + |b|] == b
  {
  }

  /** The key reads back: a row's first two cells, neither needing quotes as no timestamp or ID
      does, are what its line gives, whatever the other cells hold. */
  lemma KeyReadsBack(cells: seq<Cell>)
    requires |cells| >= 2 && !NeedsQuotes(cells[0]) && !NeedsQuotes(cells[1])
    ensures KeyCells(EncodeRow(cells)) == Some((cells[0], cells[1]))
  {
    var a, b := cells[0], cells[1];
    var pair := a + [COMMA] + b;
    var tail := TextAfterPair(cells);
    hide EncodeRow;
    hide Stripped;
    hide CommaFrom;
    CellsBetweenCommas(a, b, tail);
    CellSlices(a, b, tail);
  }

  lemma TextAfterPair(cells: seq<Cell>) returns (tail: Bytes)
    requires |cells| >= 2 && !NeedsQuotes(cells[0]) && !NeedsQuotes(cells[1])
    ensures Stripped(EncodeRow(cells)) == cells[0] + [COMMA] + cells[1] + tail
    ensures tail == [] || tail[0] == COMMA
  {
    hide Stripped;
    hide NeedsQuotes;
    var pair := cells[0] + [COMMA] + cells[1];
    LineAfterPair(cells);
    hide EncodeRow;
    if |cells| == 2 {
      if cells[1] != [] {
        EndsPlain(cells[1]);
      }
      StrippedKeeps(pair, [NEWLINE]);
      tail := [];
      assert pair + [] == pair;
    } else {
      var rest := Fields(cells[2..]) + [NEWLINE];
      StrippedKeeps(pair + [COMMA], rest);
      var text := Stripped(pair + [COMMA] + rest);
      assert text == text[..|pair| + 1] + text[|pair| + 1..];
      assert text[..|pair| + 1] == pair + [COMMA];
      tail := [COMMA] + text[|pair| + 1..];
      assert text == pair + tail;
    }
  }

  lemma EndsPlain(cell: Cell)
    requires !NeedsQuotes(cell) && cell != []
    ensures cell[|cell| - 1] != NEWLINE && cell[|cell| - 1] != RETURN
  {
    assert cell[|cell| - 1] in cell;
  }

  lemma LineAfterPair(cells: seq<Cell>)
    requires |cells| >= 2 && !NeedsQuotes(cells[0]) && !NeedsQuotes(cells[1])
    ensures var pair := cells[0] + [COMMA] + cells[1];
            EncodeRow(cells) ==
            if |cells| == 2 then pair + [NEWLINE] else pair + [COMMA] + (Fields(cells[2..]) + [NEWLINE])
  {
    hide NeedsQuotes;
    assert Fields(cells) == cells[0] + [COMMA] + Fields(cells[1..]);
    if |cells| > 2 {
      assert cells[1..][1..] == cells[2..];
      assert Fields(cells[1..]) == cells[1] + [COMMA] + Fields(cells[2..]);
    }
  }
}
