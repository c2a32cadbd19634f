/** Appending to a file that ends in part of a record, without cutting that part off first. */
module Torn {
  import opened Lines

  // ---------------------------------------------------------------- a part whose quotes balance

  /** A part of a record whose quotes balance makes one record with whatever record follows it. */
  lemma GluedIsRecord(grouping: Grouping, torn: Bytes, record: Bytes)
    requires IsRecord(grouping, record) && IsTorn(grouping, torn) && Balanced(grouping, torn)
    ensures IsRecord(grouping, torn + record)
  {
    var glued := torn + record;
    QuotesJoin(torn, record);
    forall i | 0 <= i < |glued| - 1 && glued[i] == NEWLINE ensures !Balanced(grouping, glued[..i + 1]) {
      if i < |torn| {
        TornEndsNowhere(grouping, torn, i);
        assert glued[..i + 1] == torn[..i + 1];
      } else {
        var j := i - |torn|;
        assert record[j] == NEWLINE && !Balanced(grouping, record[..j + 1]);
        assert glued[..i + 1] == torn + record[..j + 1];
        QuotesJoin(torn, record[..j + 1]);
      }
    }
  }

  /** No record ends inside a part of one. */
  lemma TornEndsNowhere(grouping: Grouping, torn: Bytes, i: nat)
    requires IsTorn(grouping, torn) && i < |torn| && torn[i] == NEWLINE
    ensures !Balanced(grouping, torn[..i + 1])
  {
    hide Balanced;
    var record :| IsRecord(grouping, record) && torn <= record && torn != record;
    assert record[i] == NEWLINE && i < |record| - 1;
    assert torn[..i + 1] == record[..i + 1];
  }

  /** Every record read back has its quotes balanced. */
  lemma {:induction false} ReadsBalanced(grouping: Grouping, pending: Bytes, lines: seq<Bytes>, i: nat)
    requires i < |Group(grouping, pending, lines)|
    ensures Balanced(grouping, Group(grouping, pending, lines)[i])
    decreases |lines|
  {
    hide Balanced;
    var joined := pending + lines[0];
    if Balanced(grouping, joined) {
      if i > 0 {
        ReadsBalanced(grouping, [], lines[1..], i - 1);
      }
    } else {
      ReadsBalanced(grouping, joined, lines[1..], i);
    }
  }

  lemma ConcatSingle(record: Bytes)
    ensures Concat([record]) == record
  {
    assert [record][1..] == [];
  }

  lemma Regroup(before: Bytes, torn: Bytes, first: Bytes, after: Bytes)
    ensures before + (torn + first) + after == before + torn + (first + after)
  {
  }

  lemma GluedBytes(before: seq<Bytes>, torn: Bytes, newer: seq<Bytes>)
    requires newer != []
    ensures Concat(before + [torn + newer[0]] + newer[1..]) == Concat(before) + torn + Concat(newer)
  {
    var first, rest := newer[0], newer[1..];
    var glued := torn + first;
    ConcatSingle(glued);
    ConcatOne(first, rest);
    assert newer == [first] + rest;
    hide Concat;
    ConcatJoins(before + [glued], rest);
    ConcatJoins(before, [glued]);
    Regroup(Concat(before), torn, first, Concat(rest));
  }

  lemma NothingTorn(grouping: Grouping)
    ensures IsTorn(grouping, [])
  {
  }

  lemma BalancedIsGlued(grouping: Grouping, before: seq<Bytes>, torn: Bytes, newer: seq<Bytes>)
    requires AreRecords(grouping, before) && AreRecords(grouping, newer) && newer != []
    requires IsTorn(grouping, torn) && Balanced(grouping, torn)
    ensures RecordsOf(grouping, Concat(before) + torn + Concat(newer)) == before + [torn + newer[0]] + newer[1..]
  {
    hide RecordsOf;
    hide IsRecord;
    hide IsTorn;
    hide Balanced;
    hide Concat;
    GluedIsRecord(grouping, torn, newer[0]);
    NothingTorn(grouping);
    var all := before + [torn + newer[0]] + newer[1..];
    assert AreRecords(grouping, all);
    GluedBytes(before, torn, newer);
    SplitInvertsWrite(grouping, all, []);
    assert Concat(all) + [] == Concat(all);
  }

  /** An append after part of a record joins that part to the first record appended, the others after
      it unharmed, exactly when the part's quotes balance. */
  lemma TornIsGlued(grouping: Grouping, before: seq<Bytes>, torn: Bytes, newer: seq<Bytes>)
    requires AreRecords(grouping, before) && AreRecords(grouping, newer) && newer != [] && IsTorn(grouping, torn)
    ensures RecordsOf(grouping, Concat(before) + torn + Concat(newer)) == before + [torn + newer[0]] + newer[1..] <==>
            Balanced(grouping, torn)
  {
    hide IsTorn;
    hide Concat;
    hide Group;
    hide SplitLines;
    if Balanced(grouping, torn) {
      BalancedIsGlued(grouping, before, torn, newer);
    } else {
      var file, glued := Concat(before) + torn + Concat(newer), torn + newer[0];
      QuotesJoin(torn, newer[0]);
      assert !Balanced(grouping, glued);
      var expected := before + [glued] + newer[1..];
      assert expected[|before|] == glued;
      if RecordsOf(grouping, file) == expected {
        ReadsBalanced(grouping, [], SplitLines(file), |before|);
      }
    }
  }

  // ---------------------------------------------------------------- a part cut inside quotes

  /** Whether a record holds a newline before its last byte, which a row does in a quoted cell. */
  predicate HoldsNewline(record: Bytes) {
    exists i :: 0 <= i < |record| - 1 && record[i] == NEWLINE
  }

  predicate NoneHoldsNewline(records: seq<Bytes>) {
    forall i :: 0 <= i < |records| ==> !HoldsNewline(records[i])
  }

  /** A line without the quotes to end what is pending is swallowed whole. */
  lemma {:induction false} LinesSwallowed(pending: Bytes, newer: seq<Bytes>)
    requires !Balanced(QuoteParity, pending) && AreRecords(QuoteParity, newer) && NoneHoldsNewline(newer)
    ensures Group(QuoteParity, pending, newer) == []
    decreases |newer|
  {
    if newer != [] {
      QuotesJoin(pending, newer[0]);
      assert Balanced(QuoteParity, newer[0]);
      LinesSwallowed(pending + newer[0], newer[1..]);
    }
  }

  lemma {:induction false} LinesAreRecords(newer: seq<Bytes>)
    requires AreRecords(QuoteParity, newer) && NoneHoldsNewline(newer)
    ensures SplitLines(Concat(newer)) == newer
    decreases |newer|
  {
    hide Balanced;
    if newer == [] {
      NoLine([]);
    } else {
      var first, rest := newer[0], Concat(newer[1..]);
      assert Concat(newer) == first + rest;
      assert first[|first| - 1] == NEWLINE;
      assert forall i :: 0 <= i < |first| - 1 ==> first[i] != NEWLINE;
      FirstLine(first + rest, |first| - 1);
      assert (first + rest)[..|first|] == first && (first + rest)[|first|..] == rest;
      LinesAreRecords(newer[1..]);
    }
  }

  lemma LinesAfter(torn: Bytes, rest: Bytes)
    requires NewlineFrom(torn, 0) == |torn|
    ensures var at := NewlineFrom(rest, 0);
            SplitLines(torn + rest) == if at ==
              |rest| then [] else [torn + rest[..at + 1]] + SplitLines(rest[at + 1..])
  {
    var at := NewlineFrom(rest, 0);
    if at == |rest| {
      forall i | 0 <= i < |torn + rest| ensures (torn + rest)[i] != NEWLINE {
      }
      assert NewlineFrom(torn + rest, 0) == |torn + rest|;
    } else {
      FirstLine(torn + rest, |torn| + at);
      assert (torn + rest)[..|torn| + at + 1] == torn + rest[..at + 1];
      assert (torn + rest)[|torn| + at + 1..] == rest[at + 1..];
    }
  }

  /** Bytes without a newline are as good as pending already. */
  lemma ShiftPending(grouping: Grouping, pending: Bytes, torn: Bytes, rest: Bytes)
    requires NewlineFrom(torn, 0) == |torn|
    ensures Group(grouping, pending, SplitLines(torn + rest)) == Group(grouping, pending + torn, SplitLines(rest))
  {
    hide Balanced;
    LinesAfter(torn, rest);
    var at := NewlineFrom(rest, 0);
    if at == |rest| {
      NoLine(rest);
    } else {
      FirstLine(rest, at);
      hide SplitLines;
      hide NewlineFrom;
      GroupTakes(grouping, pending, torn + rest[..at + 1], SplitLines(rest[at + 1..]));
      GroupTakes(grouping, pending + torn, rest[..at + 1], SplitLines(rest[at + 1..]));
      assert pending + (torn + rest[..at + 1]) == pending + torn + rest[..at + 1];
    }
  }

  /** Part of a record is pending when the lines after it are read. */
  lemma {:induction false} TornPends(grouping: Grouping, torn: Bytes, from: nat, rest: Bytes)
    requires IsTorn(grouping, torn) && from <= |torn|
    ensures Group(grouping, torn[..from], SplitLines(torn[from..] + rest)) == Group(grouping, torn, SplitLines(rest))
    decreases |torn| - from
  {
    hide SplitLines;
    hide Group;
    hide NewlineFrom;
    hide Balanced;
    hide IsTorn;
    var at := NewlineFrom(torn, from);
    if at < |torn| {
      NextLine(torn, from, at, rest);
      GroupTakes(grouping, torn[..from], torn[from..at + 1], SplitLines(torn[at + 1..] + rest));
      PiecesJoin(torn, from, at + 1);
      TornEndsNowhere(grouping, torn, at);
      TornPends(grouping, torn, at + 1, rest);
    } else {
      NoNewlineAfter(torn, from);
      ShiftPending(grouping, torn[..from], torn[from..], rest);
      assert torn[..from] + torn[from..] == torn;
    }
  }

  lemma NoNewlineAfter(bytes: Bytes, from: nat)
    requires from <= |bytes| && NewlineFrom(bytes, from) == |bytes|
    ensures NewlineFrom(bytes[from..], 0) == |bytes[from..]|
  {
    var at := NewlineFrom(bytes[from..], 0);
  }

  lemma {:induction false} RecordsBefore(grouping: Grouping, before: seq<Bytes>, rest: Bytes)
    requires AreRecords(grouping, before)
    ensures RecordsOf(grouping, Concat(before) + rest) == before + RecordsOf(grouping, rest)
    decreases |before|
  {
    hide RecordsOf;
    hide IsRecord;
    if before == [] {
      assert Concat(before) + rest == rest;
    } else {
      var more := Concat(before[1..]) + rest;
      RecordFirst(grouping, before[0], more);
      assert before[0] + more == Concat(before) + rest;
      RecordsBefore(grouping, before[1..], rest);
    }
  }

  /** What is read back from a file whose torn end was appended to: the records before it, and then
      lines that the torn end is pending before. */
  lemma TornReads(grouping: Grouping, before: seq<Bytes>, torn: Bytes, more: Bytes)
    requires AreRecords(grouping, before) && IsTorn(grouping, torn)
    ensures RecordsOf(grouping, Concat(before) + torn + more) == before + Group(grouping, torn, SplitLines(more))
  {
    hide IsTorn;
    hide IsRecord;
    hide Concat;
    hide Group;
    hide SplitLines;
    RecordsBefore(grouping, before, torn + more);
    assert Concat(before) + (torn + more) == Concat(before) + torn + more;
    TornPends(grouping, torn, 0, more);
    assert torn[..0] == [] && torn[0..] == torn;
  }

  /** While quotes are open a record of one line is swallowed. */
  lemma RecordSwallowed(pending: Bytes, first: Bytes, rest: Bytes)
    requires !Balanced(QuoteParity, pending) && IsRecord(QuoteParity, first) && !HoldsNewline(first)
    ensures Group(QuoteParity, pending, SplitLines(first + rest)) ==
            Group(QuoteParity, pending + first, SplitLines(rest))
    ensures !Balanced(QuoteParity, pending + first)
  {
    assert first[|first| - 1] == NEWLINE;
    assert forall i :: 0 <= i < |first| - 1 ==> first[i] != NEWLINE;
    FirstLine(first + rest, |first| - 1);
    assert (first + rest)[..|first|] == first && (first + rest)[|first|..] == rest;
    hide SplitLines;
    GroupTakes(QuoteParity, pending, first, SplitLines(rest));
    QuotesJoin(pending, first);
  }

  /** Quotes left open are closed by the first newline inside a record: one record up to there, of
      everything appended before it, and what the rest of that record and its followers read as. */
  lemma {:induction false} SwallowedUpTo(pending: Bytes, newer: seq<Bytes>, k: nat, i: nat)
    requires !Balanced(QuoteParity, pending) && AreRecords(QuoteParity, newer) && k < |newer|
    requires NoneHoldsNewline(newer[..k])
    requires i < |newer[k]| - 1 && newer[k][i] == NEWLINE && forall j :: 0 <= j < i ==> newer[k][j] != NEWLINE
    ensures Group(QuoteParity, pending, SplitLines(Concat(newer)))
              == [pending + Concat(newer[..k]) + newer[k][..i + 1]]
                 + RecordsOf(QuoteParity, newer[k][i + 1..] + Concat(newer[k + 1..]))
    decreases k
  {
    hide Group;
    hide SplitLines;
    var first, rest := newer[0], Concat(newer[1..]);
    assert Concat(newer) == first + rest;
    if k == 0 {
      LineCloses(pending, first, i, rest);
      assert newer[..0] == [];
      assert pending + Concat([]) + first[..i + 1] == pending + first[..i + 1];
    } else {
      assert !HoldsNewline(newer[..k][0]);
      RecordSwallowed(pending, first, rest);
      assert newer[1..][..k - 1] == newer[..k][1..] && newer[1..][k - 1] == newer[k] &&
             newer[1..][k..] == newer[k + 1..];
      var ahead, all := newer[1..][..k - 1], newer[..k];
      assert ahead == all[1..];
      assert NoneHoldsNewline(ahead) by { RestHoldsNone(all); }
      SwallowedUpTo(pending + first, newer[1..], k - 1, i);
      assert Concat(newer[..k]) == first + Concat(newer[..k][1..]);
      Regroup(pending, first, Concat(newer[..k][1..]), newer[k][..i + 1]);
      assert pending + (first + Concat(newer[..k][1..])) + newer[k][..i + 1]
               == pending + first + Concat(newer[..k][1..]) + newer[k][..i + 1];
    }
  }

  lemma RestHoldsNone(records: seq<Bytes>)
    requires records != [] && NoneHoldsNewline(records)
    ensures NoneHoldsNewline(records[1..])
  {
    hide HoldsNewline;
  }

  lemma LineCloses(pending: Bytes, record: Bytes, i: nat, rest: Bytes)
    requires !Balanced(QuoteParity, pending) && IsRecord(QuoteParity, record)
    requires i < |record| - 1 && record[i] == NEWLINE && forall j :: 0 <= j < i ==> record[j] != NEWLINE
    ensures Group(QuoteParity, pending, SplitLines(record + rest))
              == [pending + record[..i + 1]] + RecordsOf(QuoteParity, record[i + 1..] + rest)
  {
    hide Group;
    hide SplitLines;
    hide NewlineFrom;
    hide Quotes;
    FirstLine(record + rest, i);
    assert (record + rest)[..i + 1] == record[..i + 1] && (record + rest)[i + 1..] == record[i + 1..] + rest;
    assert !Balanced(QuoteParity, record[..i + 1]);
    QuotesJoin(pending, record[..i + 1]);
    GroupTakes(QuoteParity, pending, record[..i + 1], SplitLines(record[i + 1..] + rest));
  }

  lemma FirstHolding(newer: seq<Bytes>) returns (k: nat, i: nat)
    requires !NoneHoldsNewline(newer)
    ensures k < |newer| && NoneHoldsNewline(newer[..k])
    ensures i < |newer[k]| - 1 && newer[k][i] == NEWLINE && forall j :: 0 <= j < i ==> newer[k][j] != NEWLINE
  {
    k := 0;
    while !HoldsNewline(newer[k])
      invariant k < |newer| && NoneHoldsNewline(newer[..k])
      invariant exists j :: k <= j < |newer| && HoldsNewline(newer[j])
      decreases |newer| - k
    {
      k := k + 1;
    }
    i := NewlineFrom(newer[k], 0);
    var j :| 0 <= j < |newer[k]| - 1 && newer[k][j] == NEWLINE;
    assert i <= j;
  }

  /** After a row cut inside quotes an append adds no record, all of it swallowed, exactly when none
      of the appended rows holds a newline. */
  lemma SwallowedExactly(before: seq<Bytes>, torn: Bytes, newer: seq<Bytes>)
    requires AreRecords(QuoteParity, before) && AreRecords(QuoteParity, newer)
    requires IsTorn(QuoteParity, torn) && !Balanced(QuoteParity, torn)
    ensures RecordsOf(QuoteParity, Concat(before) + torn + Concat(newer)) == before <==> NoneHoldsNewline(newer)
  {
    hide IsTorn;
    hide IsRecord;
    hide RecordsOf;
    hide HoldsNewline;
    TornReads(QuoteParity, before, torn, Concat(newer));
    hide Group;
    hide SplitLines;
    if NoneHoldsNewline(newer) {
      LinesAreRecords(newer);
      LinesSwallowed(torn, newer);
      assert before + [] == before;
    } else {
      var k, i := FirstHolding(newer);
      SwallowedUpTo(torn, newer, k, i);
    }
  }

  /** What is swallowed goes with the torn end: the tail found later cuts it all off. */
  lemma SwallowedIsCut<K>(header: Bytes, key: Bytes -> K, records: seq<Bytes>, torn: Bytes, newer: seq<Bytes>)
    requires HeaderOk(QuoteParity, header) && AreRecords(QuoteParity, records) && AreRecords(QuoteParity, newer)
    requires IsTorn(QuoteParity, torn) && !Balanced(QuoteParity, torn) && NoneHoldsNewline(newer)
    ensures var file := AppendTo(header, header + Concat(records) + torn, newer);
            && TailOf(QuoteParity, header, key, file) == Tail(LastKey(key, records), |header + Concat(records)|)
            && file[..|header + Concat(records)|] == header + Concat(records)
  {
    hide IsTorn;
    hide IsRecord;
    hide RecordsOf;
    hide NoneHoldsNewline;
    var before := (if header == [] then [] else [header]) + records;
    assert torn != [] by { assert Quotes([]) == 0; }
    HeaderConcat(header, records);
    SwallowedExactly(before, torn, newer);
    var file := AppendTo(header, header + Concat(records) + torn, newer);
    assert file == Concat(before) + torn + Concat(newer);
    assert |file| >= |header|;
    if header != [] {
      assert before[1..] == records;
    }
    assert AreRecords(QuoteParity, before);
    assert file[..|header + Concat(records)|] == header + Concat(records);
  }

  lemma HeaderConcat(header: Bytes, records: seq<Bytes>)
    ensures Concat((if header == [] then [] else [header]) + records) == header + Concat(records)
  {
    if header == [] {
      assert [] + records == records && header + Concat(records) == Concat(records);
    } else {
      ConcatOne(header, records);
    }
  }

  /** A row cut after its first quote, and a row `a` appended: nothing can be read back. */
  lemma QuoteSwallows()
    ensures IsTorn(QuoteParity, [QUOTE]) && IsRecord(QuoteParity, [97, NEWLINE])
    ensures RecordsOf(QuoteParity, AppendTo([], [QUOTE], [[97, NEWLINE]])) == []
  {
    var row: Bytes := [QUOTE, QUOTE, NEWLINE];
    assert row[1..] == [QUOTE, NEWLINE] && [QUOTE, NEWLINE][1..] == [NEWLINE] && [NEWLINE][1..] == [];
    assert Quotes([NEWLINE]) == 0 && Quotes([QUOTE, NEWLINE]) == 1;
    assert Quotes(row) == 1 + Quotes(row[1..]);
    assert IsRecord(QuoteParity, row) && [QUOTE] <= row && [QUOTE] != row;
    assert Quotes([QUOTE]) == 1;
    var line: Bytes := [97, NEWLINE];
    assert line[1..] == [NEWLINE] && Quotes(line) == 0;
    assert IsRecord(QuoteParity, line);
    SwallowedExactly([], [QUOTE], [line]);
    ConcatSingle(line);
    assert Concat([]) + [QUOTE] + line == AppendTo([], [QUOTE], [line]);
  }
}
