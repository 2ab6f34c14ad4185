/** Sorting the entries of a map by key, as `EndMap` of `flexbuffers.h` does before it writes them. */
module FlexSorting {
  import opened Bytes
  import opened FlexReader
  import opened FlexValues

  /** Inserts behind the entries that are not greater. */
  function InsertEntry(entries: seq<Entry>, e: Entry): (r: seq<Entry>)
    ensures |r| == |entries| + 1
  {
    if entries == [] then [e]
    else
      var last := entries[|entries| - 1];
      if Compare(e.key, last.key) < 0 then InsertEntry(entries[..|entries| - 1], e) + [last] else entries + [e]
  }

  function SortEntries(entries: seq<Entry>): (r: seq<Entry>)
    ensures |r| == |entries|
  {
    if entries == [] then [] else InsertEntry(SortEntries(entries[..|entries| - 1]), entries[|entries| - 1])
  }

  lemma {:induction false} InsertIsPermutation(entries: seq<Entry>, e: Entry)
    ensures multiset(InsertEntry(entries, e)) == multiset(entries) + multiset{e}
  {
    if entries != [] {
      var before, last := entries[..|entries| - 1], entries[|entries| - 1];
      assert entries == before + [last];
      InsertIsPermutation(before, e);
    }
  }

  lemma {:induction false} InsertKeepsSorted(entries: seq<Entry>, e: Entry)
    requires SortedKeys(entries)
    ensures SortedKeys(InsertEntry(entries, e))
  {
    if entries != [] {
      var before, last := entries[..|entries| - 1], entries[|entries| - 1];
      assert entries == before + [last];
      if Compare(e.key, last.key) < 0 {
        InsertKeepsSorted(before, e);
        InsertIsPermutation(before, e);
        var r := InsertEntry(before, e);
        forall i | 0 <= i < |r|
          ensures Compare(r[i].key, last.key) <= 0
        {
          assert r[i] in multiset(r);
          assert r[i] == e || r[i] in before;
        }
      } else {
        CompareFlips(e.key, last.key);
        forall i | 0 <= i < |entries|
          ensures Compare(entries[i].key, e.key) <= 0
        {
          if i < |entries| - 1 {
            CompareChains(entries[i].key, last.key, e.key);
          }
        }
      }
    }
  }

  lemma {:induction false} SortSorts(entries: seq<Entry>)
    ensures SortedKeys(SortEntries(entries)) && multiset(SortEntries(entries)) == multiset(entries)
  {
    if entries != [] {
      var before, last := entries[..|entries| - 1], entries[|entries| - 1];
      assert entries == before + [last];
      SortSorts(before);
      InsertKeepsSorted(SortEntries(before), last);
      InsertIsPermutation(SortEntries(before), last);
    }
  }

  lemma {:induction false} SortedIsFixed(entries: seq<Entry>)
    requires SortedKeys(entries)
    ensures SortEntries(entries) == entries
  {
    if entries != [] {
      var before, last := entries[..|entries| - 1], entries[|entries| - 1];
      assert entries == before + [last];
      SortedIsFixed(before);
      if before != [] {
        CompareFlips(last.key, before[|before| - 1].key);
      }
    }
  }

  /** Some entry has this key. */
  ghost predicate HasKey(entries: seq<Entry>, key: seq<byte>) {
    exists e :: e in entries && e.key == key
  }

  lemma DistinctLast(entries: seq<Entry>, e: Entry)
    ensures DistinctKeys(entries + [e]) <==> DistinctKeys(entries) && !HasKey(entries, e.key)
  {
    var all := entries + [e];
    if DistinctKeys(all) {
      forall i, j | 0 <= i < j < |entries|
        ensures entries[i].key != entries[j].key
      {
        assert all[i] == entries[i] && all[j] == entries[j];
      }
      if x :| x in entries && x.key == e.key {
        var i :| 0 <= i < |entries| && entries[i] == x;
        assert all[i].key == all[|entries|].key;
      }
    }
  }

  lemma InsertedKeys(entries: seq<Entry>, e: Entry, key: seq<byte>)
    ensures HasKey(InsertEntry(entries, e), key) <==> HasKey(entries, key) || e.key == key
  {
    InsertIsPermutation(entries, e);
    assert forall x :: x in InsertEntry(entries, e) <==> x in multiset(InsertEntry(entries, e));
    assert forall x :: x in entries <==> x in multiset(entries);
  }

  lemma {:induction false} InsertKeepsDistinct(entries: seq<Entry>, e: Entry)
    ensures DistinctKeys(InsertEntry(entries, e)) <==> DistinctKeys(entries) && !HasKey(entries, e.key)
  {
    if entries == [] {
    } else if Compare(e.key, entries[|entries| - 1].key) < 0 {
      var before, last := entries[..|entries| - 1], entries[|entries| - 1];
      assert entries == before + [last];
      InsertKeepsDistinct(before, e);
      InsertedKeys(before, e, last.key);
      DistinctLast(InsertEntry(before, e), last);
      DistinctLast(before, last);
    } else {
      DistinctLast(entries, e);
    }
  }

  /** Sorting neither makes nor removes duplicate keys. */
  lemma {:induction false} SortKeepsDistinct(entries: seq<Entry>)
    ensures DistinctKeys(SortEntries(entries)) <==> DistinctKeys(entries)
  {
    if entries != [] {
      var before, last := entries[..|entries| - 1], entries[|entries| - 1];
      assert entries == before + [last];
      SortKeepsDistinct(before);
      InsertKeepsDistinct(SortEntries(before), last);
      DistinctLast(before, last);
      SortSorts(before);
      assert forall x :: x in SortEntries(before) <==> x in multiset(before);
    }
  }

  /** Sorting does not change what is found under a key. */
  lemma SortKeepsFinds(entries: seq<Entry>, key: seq<byte>)
    requires DistinctKeys(entries)
    ensures Find(SortEntries(entries), key) == Find(entries, key)
  {
    var sorted := SortEntries(entries);
    SortKeepsDistinct(entries);
    SortSorts(entries);
    FindsNone(entries, key);
    FindsNone(sorted, key);
    if i :| 0 <= i < |entries| && entries[i].key == key {
      FindsAt(entries, key, i);
      assert entries[i] in multiset(sorted);
      var j :| 0 <= j < |sorted| && sorted[j] == entries[i];
      FindsAt(sorted, key, j);
    } else {
      forall j | 0 <= j < |sorted|
        ensures sorted[j].key != key
      {
        assert sorted[j] in multiset(entries);
        assert sorted[j] in entries;
      }
    }
  }

  // ----- the loop that sorts pairs of stack values -----

  /** The pairs stand for the entries. */
  ghost predicate PairsHold(buf: seq<byte>, dict: seq<(Value, Value)>, entries: seq<Entry>) {
    |dict| == |entries| && forall i :: 0 <= i < |dict| ==> PairHolds(buf, dict[i], entries[i])
  }

  ghost predicate PairHolds(buf: seq<byte>, pair: (Value, Value), e: Entry) {
    Holds(buf, pair.0, Key(e.key)) && Holds(buf, pair.1, e.value)
  }

  /** The key of a pair, read through its position. */
  function PairKey(buf: seq<byte>, pair: (Value, Value)): seq<byte>
    requires pair.0.n >= 0
  {
    CString(buf, pair.0.n)
  }

  lemma PairKeyIsKey(buf: seq<byte>, pair: (Value, Value), e: Entry)
    requires PairHolds(buf, pair, e)
    ensures pair.0.n >= 0 && PairKey(buf, pair) == e.key
  {
    KeyIsCString(buf, pair.0.n, e.key);
  }

  /** Inserts one pair into sorted pairs; tells whether its key was there. */
  method InsertPair(buf: seq<byte>, dict: seq<(Value, Value)>, x: (Value, Value), ghost entries: seq<Entry>,
                    ghost e: Entry)
    returns (r: seq<(Value, Value)>, duplicate: bool)
    requires PairsHold(buf, dict, entries) && PairHolds(buf, x, e) && SortedKeys(entries)
    ensures PairsHold(buf, r, InsertEntry(entries, e))
    ensures duplicate <==> HasKey(entries, e.key)
  {
    hide CString;
    hide Compare;
    hide Holds;
    hide InsertEntry;
    hide HasKey;
    PairKeyIsKey(buf, x, e);
    var j := |dict|;
    assert entries[..j] == entries;
    duplicate := false;
    while j > 0
      invariant 0 <= j <= |dict| && !duplicate
      invariant InsertEntry(entries, e) == InsertEntry(entries[..j], e) + entries[j..]
      invariant forall i :: j <= i < |dict| ==> Compare(e.key, entries[i].key) < 0
    {
      PairKeyIsKey(buf, dict[j - 1], entries[j - 1]);
      var order := Compare(PairKey(buf, x), PairKey(buf, dict[j - 1]));
      if order == 0 {
        duplicate := true;
      }
      if order >= 0 {
        break;
      }
      InsertBefore(entries, e, j);
      j := j - 1;
    }
    InsertionPoint(entries, e, j);
    r := dict[..j] + [x] + dict[j..];
    PairIsInserted(buf, dict, x, entries, e, j);
  }

  lemma InsertBefore(entries: seq<Entry>, e: Entry, j: nat)
    requires 0 < j <= |entries| && Compare(e.key, entries[j - 1].key) < 0
    ensures InsertEntry(entries[..j], e) + entries[j..] == InsertEntry(entries[..j - 1], e) + entries[j - 1..]
  {
    assert entries[..j][..j - 1] == entries[..j - 1];
  }

  lemma PairIsInserted(buf: seq<byte>, dict: seq<(Value, Value)>, x: (Value, Value), entries: seq<Entry>, e: Entry,
                       j: nat)
    requires PairsHold(buf, dict, entries) && PairHolds(buf, x, e) && j <= |dict|
    ensures PairsHold(buf, dict[..j] + [x] + dict[j..], entries[..j] + [e] + entries[j..])
  {
    hide PairHolds;
  }

  lemma InsertionPoint(entries: seq<Entry>, e: Entry, j: nat)
    requires SortedKeys(entries) && j <= |entries|
    requires forall i :: j <= i < |entries| ==> Compare(e.key, entries[i].key) < 0
    requires j > 0 ==> Compare(e.key, entries[j - 1].key) >= 0
    ensures InsertEntry(entries[..j], e) == entries[..j] + [e]
    ensures HasKey(entries, e.key) <==> j > 0 && Compare(e.key, entries[j - 1].key) == 0
  {
    hide Compare;
    if j > 0 {
      CompareIsZero(e.key, entries[j - 1].key);
      assert entries[j - 1] in entries;
      assert entries[..j][j - 1] == entries[j - 1];
    }
    assert InsertEntry(entries[..j], e) == entries[..j] + [e];
    hide InsertEntry;
    if x :| x in entries && x.key == e.key {
      var i :| 0 <= i < |entries| && entries[i] == x;
      CompareIsZero(e.key, entries[i].key);
      if i < j - 1 {
        CompareFlips(e.key, entries[j - 1].key);
        CompareChains(e.key, entries[i].key, entries[j - 1].key);
      }
    }
  }

  lemma SortNothing(entries: seq<Entry>)
    ensures SortEntries(entries[..0]) == [] && DistinctKeys(entries[..0])
  {}

  lemma SortStep(entries: seq<Entry>, i: nat)
    requires i < |entries|
    ensures SortEntries(entries[..i + 1]) == InsertEntry(SortEntries(entries[..i]), entries[i])
      && SortedKeys(SortEntries(entries[..i]))
    ensures DistinctKeys(entries[..i + 1]) <==>
      DistinctKeys(entries[..i]) && !HasKey(SortEntries(entries[..i]), entries[i].key)
  {
    hide Compare;
    var before := entries[..i];
    assert entries[..i + 1] == before + [entries[i]] && entries[..i + 1][..i] == before;
    SortSorts(before);
    DistinctLast(before, entries[i]);
    assert forall x :: x in SortEntries(before) <==> x in multiset(before);
  }

  /** Sorts the pairs by key; tells whether two keys are equal. */
  method SortPairs(buf: seq<byte>, dict: seq<(Value, Value)>, ghost entries: seq<Entry>)
    returns (r: seq<(Value, Value)>, duplicates: bool)
    requires PairsHold(buf, dict, entries)
    ensures PairsHold(buf, r, SortEntries(entries))
    ensures duplicates <==> !DistinctKeys(entries)
  {
    hide PairHolds;
    hide DistinctKeys;
    hide SortedKeys;
    hide HasKey;
    r, duplicates := [], false;
    SortNothing(entries);
    for i := 0 to |dict|
      invariant PairsHold(buf, r, SortEntries(entries[..i]))
      invariant duplicates <==> !DistinctKeys(entries[..i])
    {
      SortStep(entries, i);
      var duplicate;
      r, duplicate := InsertPair(buf, r, dict[i], SortEntries(entries[..i]), entries[i]);
      duplicates := duplicates || duplicate;
    }
    assert entries[..|dict|] == entries;
  }
}
