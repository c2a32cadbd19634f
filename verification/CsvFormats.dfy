/** A format the machine's files can have: CSV rows that begin with a record's time and identifier in
    decimal digits, whatever other cells follow. */
module CsvFormats {
  import opened Options
  import opened Keys
  import opened Lines
  import opened Csv
  import Disk

  // ---------------------------------------------------------------- decimal digits

  function DigitByte(n: nat): Byte
    requires n < 10
  {
    (48 + n) as Byte
  }

  function Decimal(n: nat): Bytes {
    if n < 10 then [DigitByte(n)] else Decimal(n / 10) + [DigitByte(n % 10)]
  }

  predicate IsDigit(byte: Byte) {
    48 <= byte <= 57
  }

  /** The number some bytes spell, anything but a digit counted as nothing. */
  function FromDecimal(bytes: Bytes): nat {
    if bytes == [] then 0
    else
      var last := bytes[|bytes| - 1];
      10 * FromDecimal(bytes[..|bytes| - 1]) + if IsDigit(last) then (last - 48) as nat else 0
  }

  lemma {:induction false} DecimalReads(n: nat)
    ensures FromDecimal(Decimal(n)) == n && forall byte :: byte in Decimal(n) ==> IsDigit(byte)
  {
    if n >= 10 {
      DecimalReads(n / 10);
      var text := Decimal(n);
      assert text[..|text| - 1] == Decimal(n / 10);
    } else {
      assert Decimal(n)[..0] == [];
    }
  }

  lemma DigitsArePlain(cell: Cell)
    requires forall byte :: byte in cell ==> IsDigit(byte)
    ensures !NeedsQuotes(cell)
  {
  }

  // ---------------------------------------------------------------- rows of records

  function KeyRow(key: Key, more: Key -> seq<Cell>): seq<Cell> {
    [Decimal(key.time), Decimal(key.id)] + more(key)
  }

  function ReadKey(line: Bytes): Key {
    match KeyCells(line)
    case Some((time, id)) => Key(FromDecimal(time), FromDecimal(id))
    case None => Key(0, 0)
  }

  /** The format, its files with a row of column names or without, its records with any other cells. */
  function CsvFormat(columns: Option<seq<Cell>>, more: Key -> seq<Cell>): Disk.Format {
    Disk.Format(QuoteParity, if columns.Some? then EncodeRow(columns.value) else [],
                (key: Key) => EncodeRow(KeyRow(key, more)), ReadKey)
  }

  lemma RowKeyReads(key: Key, more: Key -> seq<Cell>)
    ensures ReadKey(EncodeRow(KeyRow(key, more))) == key
  {
    var cells := KeyRow(key, more);
    DecimalReads(key.time);
    DecimalReads(key.id);
    DigitsArePlain(cells[0]);
    DigitsArePlain(cells[1]);
    KeyReadsBack(cells);
    hide EncodeRow;
  }

  /** Such a format is sound, so what is said of sound formats is said of these files. */
  lemma CsvIsSound(columns: Option<seq<Cell>>, more: Key -> seq<Cell>)
    ensures Disk.Sound(CsvFormat(columns, more))
  {
    hide IsRecord;
    hide EncodeRow;
    hide ReadKey;
    var f := CsvFormat(columns, more);
    if columns.Some? {
      RowIsRecord(columns.value);
    }
    forall key: Key ensures IsRecord(f.grouping, f.encode(key)) && f.key(f.encode(key)) == key {
      RowIsRecord(KeyRow(key, more));
      RowKeyReads(key, more);
    }
  }
}
