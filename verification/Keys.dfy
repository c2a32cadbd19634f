/** Record keys and the order every keyed file keeps. */
module Keys {
  import opened Options
  import opened Calendar

  /** A record's `(timestamp, id)`, which identifies it and orders it. */
  datatype Key = Key(time: Moment, id: nat)

  predicate Less(a: Key, b: Key) {
    a.time < b.time || (a.time == b.time && a.id < b.id)
  }

  predicate AtMost(a: Key, b: Key) {
    !Less(b, a)
  }

  function MinKey(a: Key, b: Key): Key { if Less(b, a) then b else a }
  function MaxKey(a: Key, b: Key): Key { if Less(a, b) then b else a }

  /** Strictly increasing, so sorted and free of duplicates. */
  ghost predicate Increasing(keys: seq<Key>) {
    forall i, j :: 0 <= i < j < |keys| ==> Less(keys[i], keys[j])
  }

  function LastOf(keys: seq<Key>): Option<Key> {
    if keys == [] then None else Some(keys[|keys| - 1])
  }

  lemma LeastExists(keys: set<Key>)
    requires keys != {}
    ensures exists k :: k in keys && forall other :: other in keys ==> AtMost(k, other)
  {
    var some :| some in keys;
    var rest := keys - {some};
    if rest == {} {
      assert keys == {some};
    } else {
      LeastExists(rest);
      var k :| k in rest && forall other :: other in rest ==> AtMost(k, other);
      var least := MinKey(some, k);
      assert forall other :: other in keys ==> other == some || other in rest;
      assert least in keys && forall other :: other in keys ==> AtMost(least, other);
    }
  }

  function Least(keys: set<Key>): (least: Key)
    requires keys != {}
    ensures least in keys && forall other :: other in keys ==> AtMost(least, other)
  {
    LeastExists(keys);
    var k :| k in keys && forall other :: other in keys ==> AtMost(k, other);
    k
  }

  /** A query's result: the records of a set in key order, each once. */
  function Sorted(keys: set<Key>): (sorted: seq<Key>)
    ensures Increasing(sorted)
    ensures forall k :: k in sorted <==> k in keys
  {
    if keys == {} then []
    else
      var least := Least(keys);
      [least] + Sorted(keys - {least})
  }

  lemma FirstIsLeast(keys: seq<Key>, records: set<Key>)
    requires keys != [] && Increasing(keys) && forall k :: k in keys <==> k in records
    ensures records != {} && Least(records) == keys[0]
  {
    assert keys[0] in records;
    var least := Least(records);
    var i :| 0 <= i < |keys| && keys[i] == least;
    assert AtMost(least, keys[0]);
  }

  lemma RestHolds(keys: seq<Key>, records: set<Key>)
    requires keys != [] && Increasing(keys) && forall k :: k in keys <==> k in records
    ensures Increasing(keys[1..])
    ensures forall k :: k in keys[1..] <==> k in records - {keys[0]}
  {
    var rest := keys[1..];
    forall k | k in rest ensures k in records - {keys[0]} {
      var i :| 0 <= i < |rest| && rest[i] == k;
      assert k == keys[i + 1] && Less(keys[0], keys[i + 1]);
    }
    forall k | k in records - {keys[0]} ensures k in rest {
      var i :| 0 <= i < |keys| && keys[i] == k;
      assert rest[i - 1] == k;
    }
  }

  /** Key order leaves no choice: an increasing sequence is the sorted form of its records. */
  lemma {:induction false} SortedIsOnly(keys: seq<Key>, records: set<Key>)
    requires Increasing(keys) && forall k :: k in keys <==> k in records
    ensures keys == Sorted(records)
  {
    if keys == [] {
      assert records == {};
    } else {
      FirstIsLeast(keys, records);
      RestHolds(keys, records);
      hide Increasing;
      SortedIsOnly(keys[1..], records - {keys[0]});
      assert keys == [keys[0]] + keys[1..];
    }
  }

  /** Records after a file's last key keep the file increasing when they are appended. */
  lemma IncreasingAppend(file: seq<Key>, newer: seq<Key>)
    requires Increasing(file) && Increasing(newer)
    requires forall k :: k in newer && file != [] ==> Less(file[|file| - 1], k)
    ensures Increasing(file + newer)
  {
    var whole := file + newer;
    forall i, j | 0 <= i < j < |whole| ensures Less(whole[i], whole[j]) {
      if i < |file| <= j {
        assert whole[j] == newer[j - |file|] && whole[j] in newer;
        assert i == |file| - 1 || Less(file[i], file[|file| - 1]);
      }
    }
  }
}
