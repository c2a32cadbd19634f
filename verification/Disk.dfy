/** The machine's files as bytes on disk: what truncating, appending and replacing do to the bytes
    is what the machine's steps do to its records. */
module Disk {
  import opened Calendar
  import opened Keys
  import Lines
  import opened Live

  type Bytes = Lines.Bytes

  /** How a writer's files are laid out: an encoder of records whose keys read back. */
  datatype Format = Format(grouping: Lines.Grouping, header: Bytes, encode: Key -> Bytes, key: Bytes -> Key)

  ghost predicate Sound(f: Format) {
    Lines.HeaderOk(f.grouping, f.header)
    && forall k :: Lines.IsRecord(f.grouping, f.encode(k)) && f.key(f.encode(k)) == k
  }

  function Encoded(f: Format, keys: seq<Key>): (records: seq<Bytes>)
    ensures |records| == |keys| && forall i :: 0 <= i < |keys| ==> records[i] == f.encode(keys[i])
  {
    seq(|keys|, i requires 0 <= i < |keys| => f.encode(keys[i]))
  }

  function Whole(f: Format, keys: seq<Key>): Bytes {
    f.header + Lines.Concat(Encoded(f, keys))
  }

  /** Whether bytes are a file of the machine: its header and records and part of one more, or only
      part of its header. */
  ghost predicate Stores(f: Format, file: File, bytes: Bytes) {
    || (Whole(f, file.records) <= bytes && Lines.IsTorn(f.grouping, bytes[|Whole(f, file.records)|..])
        && (file.torn <==> bytes != Whole(f, file.records)))
    || (file.records == [] && bytes <= f.header && bytes != f.header && (file.torn <==> bytes != []))
  }

  lemma EncodedRecords(f: Format, keys: seq<Key>)
    requires Sound(f)
    ensures Lines.AreRecords(f.grouping, Encoded(f, keys))
  {
    hide Lines.IsRecord;
  }

  lemma NothingTorn(f: Format)
    ensures Lines.IsTorn(f.grouping, [])
  {
  }

  /** A file written whole stores its records. */
  lemma WrittenWhole(f: Format, keys: seq<Key>)
    requires Sound(f)
    ensures Stores(f, File(keys, false), Whole(f, keys))
  {
    NothingTorn(f);
    assert Whole(f, keys)[|Whole(f, keys)|..] == [];
  }

  /** Reading where the bytes end finds the last key, and that bytes follow it exactly when the file
      ends in a torn record. Truncating there removes just that. */
  lemma TailIsUntorn(f: Format, file: File, bytes: Bytes)
    requires Sound(f) && Stores(f, file, bytes)
    ensures var tail := Lines.TailOf(f.grouping, f.header, f.key, bytes);
            && tail.Tail? && tail.last == LastOf(file.records) && tail.length <= |bytes|
            && (tail.length < |bytes| <==> file.torn)
            && Stores(f, File(file.records, false), bytes[..tail.length])
  {
    hide Lines.TailOf;
    hide Lines.IsRecord;
    hide Lines.IsTorn;
    EncodedRecords(f, file.records);
    NothingTorn(f);
    var whole := Whole(f, file.records);
    if whole <= bytes && Lines.IsTorn(f.grouping, bytes[|whole|..]) && (file.torn <==> bytes != whole) {
      var torn := bytes[|whole|..];
      assert bytes == whole + torn;
      Lines.TailAfterRecords(f.grouping, f.header, f.key, Encoded(f, file.records), torn);
      assert bytes[..|whole|] == whole && whole[|whole|..] == [];
    } else {
      Lines.TailInsideHeader(f.grouping, f.header, f.key, bytes);
      assert bytes[..0] == [];
    }
  }

  /** Appending to bytes without a torn end, cut anywhere, leaves what the machine's append leaves
      for some count of whole records. */
  lemma CutIsAppended(f: Format, records: seq<Key>, newer: seq<Key>, bytes: Bytes, cut: nat)
    returns (count: nat, torn: bool)
    requires Sound(f) && Stores(f, File(records, false), bytes) && newer != []
    requires |bytes| <= cut <= |Lines.AppendTo(f.header, bytes, Encoded(f, newer))|
    ensures Cuts(newer, count, torn)
    ensures Stores(f, File(records + newer[..count], torn), Lines.AppendTo(f.header, bytes, Encoded(f, newer))[..cut])
  {
    hide Lines.IsRecord;
    hide Lines.IsTorn;
    hide Lines.AreRecords;
    NothingTorn(f);
    EncodedRecords(f, newer);
    var added := Lines.Concat(Encoded(f, newer));
    if bytes == [] && f.header != [] {
      HeaderFirst(f, records, bytes);
      assert Lines.AppendTo(f.header, bytes, Encoded(f, newer)) == f.header + added;
      if cut < |f.header| {
        assert (f.header + added)[..cut] == f.header[..cut];
        assert records + newer[..0] == [];
        return 0, cut > 0;
      }
      assert records == [] && Whole(f, []) == f.header + [] == f.header;
      count, torn := CutAfter(f, [], newer, f.header, cut);
      assert records + newer[..count] == [] + newer[..count];
    } else {
      WholeBytes(f, records, bytes);
      assert Lines.AppendTo(f.header, bytes, Encoded(f, newer)) == bytes + added;
      count, torn := CutAfter(f, records, newer, bytes, cut);
    }
  }

  lemma HeaderFirst(f: Format, records: seq<Key>, bytes: Bytes)
    requires Stores(f, File(records, false), bytes) && bytes == [] && f.header != []
    ensures records == []
  {
  }

  lemma WholeBytes(f: Format, records: seq<Key>, bytes: Bytes)
    requires Stores(f, File(records, false), bytes) && (bytes != [] || f.header == [])
    ensures bytes == Whole(f, records)
  {
  }

  lemma CutAfter(f: Format, records: seq<Key>, newer: seq<Key>, bytes: Bytes, cut: nat)
    returns (count: nat, torn: bool)
    requires Sound(f) && bytes == Whole(f, records)
    requires |bytes| <= cut <= |bytes + Lines.Concat(Encoded(f, newer))|
    ensures Cuts(newer, count, torn)
    ensures Stores(f, File(records + newer[..count], torn), (bytes + Lines.Concat(Encoded(f, newer)))[..cut])
  {
    hide Lines.IsRecord;
    hide Lines.IsTorn;
    hide Lines.AreRecords;
    hide Lines.Concat;
    hide Encoded;
    EncodedRecords(f, newer);
    var added := Lines.Concat(Encoded(f, newer));
    var end: Bytes;
    assert |Encoded(f, newer)| == |newer|;
    count, end := Lines.CutRecords(f.grouping, Encoded(f, newer), cut - |bytes|);
    torn := end != [];
    WholeJoins(f, records, newer, count);
    hide Whole;
    var whole := Whole(f, records + newer[..count]);
    assert (bytes + added)[..cut] == bytes + added[..cut - |bytes|] == whole + end;
    assert (whole + end)[|whole|..] == end;
  }

  lemma WholeJoins(f: Format, records: seq<Key>, newer: seq<Key>, count: nat)
    requires count <= |newer|
    ensures Whole(f, records + newer[..count]) == Whole(f, records) + Lines.Concat(Encoded(f, newer)[..count])
  {
    hide Lines.Concat;
    assert Encoded(f, newer)[..count] == Encoded(f, newer[..count]);
    assert Encoded(f, records + newer[..count]) == Encoded(f, records) + Encoded(f, newer[..count]);
    Lines.ConcatJoins(Encoded(f, records), Encoded(f, newer[..count]));
  }

  /** An append left to finish stores all its records. */
  lemma AppendFinishes(f: Format, records: seq<Key>, newer: seq<Key>, bytes: Bytes)
    requires Sound(f) && Stores(f, File(records, false), bytes) && newer != []
    ensures Stores(f, File(records + newer, false), Lines.AppendTo(f.header, bytes, Encoded(f, newer)))
  {
    assert newer[..|newer|] == newer && Encoded(f, newer)[..|newer|] == Encoded(f, newer);
    WholeJoins(f, records, newer, |newer|);
    WrittenWhole(f, records + newer);
    if bytes == [] && f.header != [] {
      HeaderFirst(f, records, bytes);
      assert Whole(f, []) == f.header + [] == f.header;
    } else {
      WholeBytes(f, records, bytes);
    }
    hide Whole;
    hide Stores;
    hide Lines.Concat;
    hide Encoded;
  }

  // ---------------------------------------------------------------- runs

  /** Whether a disk holds the machine's files. */
  ghost predicate OnDisk(f: Format, files: Files, disk: map<Moment, Bytes>) {
    disk.Keys == files.Keys && forall start :: start in files ==> Stores(f, files[start], disk[start])
  }

  /** The keys of the complete records of some bytes, the header left out. */
  function KeysOn(f: Format, bytes: Bytes): (keys: seq<Key>) {
    var records := Lines.RecordsOf(f.grouping, bytes);
    var body := if f.header != [] && records != [] then records[1..] else records;
    seq(|body|, i requires 0 <= i < |body| => f.key(body[i]))
  }

  /** What can be read back from the bytes is what the machine says the file holds. */
  lemma KeysAreStored(f: Format, file: File, bytes: Bytes)
    requires Sound(f) && Stores(f, file, bytes)
    ensures KeysOn(f, bytes) == file.records
  {
    hide Lines.RecordsOf;
    hide Lines.IsRecord;
    hide Lines.IsTorn;
    EncodedRecords(f, file.records);
    var whole := Whole(f, file.records);
    if whole <= bytes && Lines.IsTorn(f.grouping, bytes[|whole|..]) && (file.torn <==> bytes != whole) {
      assert bytes == whole + bytes[|whole|..];
      Lines.RecordsAfterHeader(f.grouping, f.header, Encoded(f, file.records), bytes[|whole|..]);
    } else {
      assert Lines.IsTorn(f.grouping, bytes) by { HeaderTorn(f, bytes); }
      Lines.TornHoldsNoRecord(f.grouping, bytes);
    }
  }

  lemma HeaderTorn(f: Format, bytes: Bytes)
    requires Sound(f) && f.header != [] && bytes <= f.header && bytes != f.header
    ensures Lines.IsTorn(f.grouping, bytes)
  {
    hide Lines.IsRecord;
    assert Lines.IsRecord(f.grouping, f.header);
  }
}
