/** Building any tree and reading it back: the round trip through `flexbuffers.h`. */
module FlexRoundTrip {
  import opened Bytes
  import opened FlexScalars
  import opened FlexReader
  import opened FlexSorting
  import opened FlexBuilder

  // ----- the trees that can be built, and what they read back as -----

  /** The integers have 64 bits. */
  predicate InRange(tree: Tree)
    decreases tree
  {
    match tree
    case Int(i) => IsInt64(i)
    case IndirectInt(i) => IsInt64(i)
    case UInt(u) => IsUInt64(u)
    case IndirectUInt(u) => IsUInt64(u)
    case Vector(elements) => forall i :: 0 <= i < |elements| ==> InRange(elements[i])
    case Map(entries) => forall i :: 0 <= i < |entries| ==> InRange(entries[i].value)
    case _ => true
  }

  /** Keys end at their first NUL, and maps are sorted by key. */
  function Canonical(tree: Tree): Tree
    decreases tree
  {
    match tree
    case Key(k) => Key(UpToNul(k))
    case Vector(elements) => Vector(CanonicalAll(elements))
    case Map(entries) => Map(SortEntries(CanonicalEntries(entries)))
    case _ => tree
  }

  function CanonicalAll(trees: seq<Tree>): (r: seq<Tree>)
    ensures |r| == |trees|
    decreases trees
  {
    if trees == [] then [] else CanonicalAll(trees[..|trees| - 1]) + [Canonical(trees[|trees| - 1])]
  }

  function CanonicalEntries(entries: seq<Entry>): (r: seq<Entry>)
    ensures |r| == |entries|
    decreases entries
  {
    if entries == [] then []
    else
      var last := entries[|entries| - 1];
      CanonicalEntries(entries[..|entries| - 1]) + [Entry(UpToNul(last.key), Canonical(last.value))]
  }

  /** No map in the tree has two equal keys. */
  ghost predicate AllDistinct(tree: Tree)
    decreases tree
  {
    match tree
    case Vector(elements) => forall i :: 0 <= i < |elements| ==> AllDistinct(elements[i])
    case Map(entries) => DistinctKeys(CanonicalEntries(entries)) && forall i :: 0 <= i < |entries| ==>
        AllDistinct(entries[i].value)
    case _ => true
  }

  /** A bound on the bytes a tree may take. */
  function Cost(tree: Tree): nat
    decreases tree
  {
    match tree
    case IndirectInt(_) => 15
    case IndirectUInt(_) => 15
    case Key(k) => |k| + 1
    case String(s) => |s| + 16
    case Blob(s) => |s| + 16
    case Vector(elements) => CostOfAll(elements) + 16 * |elements| + 64
    case Map(entries) => CostOfEntries(entries) + 64 * |entries| + 160
    case _ => 0
  }

  function CostOfAll(trees: seq<Tree>): nat
    decreases trees
  {
    if trees == [] then 0 else CostOfAll(trees[..|trees| - 1]) + Cost(trees[|trees| - 1])
  }

  function CostOfEntries(entries: seq<Entry>): nat
    decreases entries
  {
    if entries == [] then 0
    else
      var last := entries[|entries| - 1];
      CostOfEntries(entries[..|entries| - 1]) + |last.key| + 1 + Cost(last.value)
  }

  lemma {:induction false} CostOfPrefix(trees: seq<Tree>, i: nat)
    requires i <= |trees|
    ensures CostOfAll(trees[..i]) <= CostOfAll(trees)
  {
    if i < |trees| {
      CostOfPrefix(trees[..|trees| - 1], i);
      assert trees[..|trees| - 1][..i] == trees[..i];
    } else {
      assert trees[..i] == trees;
    }
  }

  lemma {:induction false} CostOfEntriesPrefix(entries: seq<Entry>, i: nat)
    requires i <= |entries|
    ensures CostOfEntries(entries[..i]) <= CostOfEntries(entries)
  {
    if i < |entries| {
      CostOfEntriesPrefix(entries[..|entries| - 1], i);
      assert entries[..|entries| - 1][..i] == entries[..i];
    } else {
      assert entries[..i] == entries;
    }
  }

  /** Keys and values as they lie on the stack. */
  function Interleaved(entries: seq<Entry>): (r: seq<Tree>)
    ensures |r| == 2 * |entries|
  {
    if entries == [] then []
    else
      var last := entries[|entries| - 1];
      Interleaved(entries[..|entries| - 1]) + [Key(last.key), last.value]
  }

  lemma {:induction false} InterleavedAt(entries: seq<Entry>, k: nat)
    requires k < |entries|
    ensures Interleaved(entries)[2 * k] == Key(entries[k].key) && Interleaved(entries)[2 * k + 1] == entries[k].value
  {
    if k < |entries| - 1 {
      InterleavedAt(entries[..|entries| - 1], k);
    }
  }

  lemma EntriesOfInterleaved(before: seq<Tree>, entries: seq<Entry>)
    ensures KeysAlternate(before + Interleaved(entries), |before|)
    ensures EntriesOf(before + Interleaved(entries), |before|) == entries
  {
    var meaning := before + Interleaved(entries);
    forall k | 0 <= k < |entries|
      ensures meaning[|before| + 2 * k] == Key(entries[k].key) && meaning[|before| + 2 * k + 1] == entries[k].value
    {
      InterleavedAt(entries, k);
    }
  }

  // ----- building -----

  /** Adds a tree with the operations of the builder. */
  method Add(builder: Builder, tree: Tree)
    requires builder.Valid() && InRange(tree) && |builder.buf| + Cost(tree) < MAX_SIZE
    modifies builder
    ensures builder.Valid() && builder.meaning == old(builder.meaning) + [Canonical(tree)]
    ensures old(builder.buf) <= builder.buf && |builder.buf| <= |old(builder.buf)| + Cost(tree)
    ensures builder.hasDuplicateKeys <==> old(builder.hasDuplicateKeys) || !AllDistinct(tree)
    decreases tree
  {
    match tree {
      case Null => builder.AddNull();
      case Bool(b) => builder.AddBool(b);
      case Int(i) => builder.AddInt(i);
      case UInt(u) => builder.AddUInt(u);
      case IndirectInt(i) => builder.PushIndirect(i, FBT_INDIRECT_INT, WidthI(i), tree);
      case IndirectUInt(u) => builder.PushIndirect(u, FBT_INDIRECT_UINT, WidthU(u), tree);
      case Key(k) => var _ := builder.AddKey(k);
      case String(s) => var _ := builder.AddString(s);
      case Blob(s) => var _ := builder.AddBlob(s);
      case Vector(elements) => AddVector(builder, elements, tree);
      case Map(entries) => AddMap(builder, entries, tree);
    }
  }

  lemma NoElements(elements: seq<Tree>)
    ensures CanonicalAll(elements[..0]) == [] && CostOfAll(elements[..0]) == 0
  {}

  lemma OneMoreElement(elements: seq<Tree>, i: nat)
    requires i < |elements|
    ensures CanonicalAll(elements[..i + 1]) == CanonicalAll(elements[..i]) + [Canonical(elements[i])]
    ensures CostOfAll(elements[..i]) + Cost(elements[i]) == CostOfAll(elements[..i + 1]) <= CostOfAll(elements)
  {
    assert elements[..i + 1][..i] == elements[..i];
    CostOfPrefix(elements, i + 1);
  }

  method AddVector(builder: Builder, elements: seq<Tree>, ghost tree: Tree)
    requires builder.Valid() && tree == Vector(elements) && InRange(tree) && |builder.buf| + Cost(tree) < MAX_SIZE
    modifies builder
    ensures builder.Valid() && builder.meaning == old(builder.meaning) + [Canonical(tree)]
    ensures old(builder.buf) <= builder.buf && |builder.buf| <= |old(builder.buf)| + Cost(tree)
    ensures builder.hasDuplicateKeys <==> old(builder.hasDuplicateKeys) || !AllDistinct(tree)
    decreases tree, 0
  {
    hide Builder.Valid;
    hide CanonicalAll;
    hide CostOfAll;
    NoElements(elements);
    var start := |builder.stack|;
    builder.SameDepth();
    ghost var buf, meaning, duplicates := builder.buf, builder.meaning, builder.hasDuplicateKeys;
    for i := 0 to |elements|
      invariant builder.Valid() && builder.meaning == meaning + CanonicalAll(elements[..i])
      invariant buf <= builder.buf && |builder.buf| <= |buf| + CostOfAll(elements[..i])
      invariant builder.hasDuplicateKeys <==> duplicates || exists j :: 0 <= j < i && !AllDistinct(elements[j])
    {
      OneMoreElement(elements, i);
      Add(builder, elements[i]);
    }
    assert elements[..|elements|] == elements;
    builder.SameDepth();
    assert builder.meaning[..start] == meaning && builder.meaning[start..] == CanonicalAll(elements);
    var _ := builder.EndVector(start);
  }

  lemma NoEntries(entries: seq<Entry>)
    ensures Interleaved(CanonicalEntries(entries[..0])) == [] && CostOfEntries(entries[..0]) == 0
  {}

  lemma OneMoreEntry(entries: seq<Entry>, i: nat)
    requires i < |entries|
    ensures Interleaved(CanonicalEntries(entries[..i + 1])) ==
      Interleaved(CanonicalEntries(entries[..i])) + [Key(UpToNul(entries[i].key))] + [Canonical(entries[i].value)]
    ensures CostOfEntries(entries[..i]) + |entries[i].key| + 1 + Cost(entries[i].value) ==
      CostOfEntries(entries[..i + 1]) <= CostOfEntries(entries)
  {
    assert entries[..i + 1][..i] == entries[..i];
    CostOfEntriesPrefix(entries, i + 1);
    assert CanonicalEntries(entries[..i + 1])[..i] == CanonicalEntries(entries[..i]);
  }

  /** Adds the keys and the values of a map, each key in front of its value. */
  method AddEntries(builder: Builder, entries: seq<Entry>, ghost tree: Tree)
    requires builder.Valid() && tree == Map(entries) && InRange(tree) && |builder.buf| + Cost(tree) < MAX_SIZE
    modifies builder
    ensures builder.Valid() && builder.meaning == old(builder.meaning) + Interleaved(CanonicalEntries(entries))
    ensures old(builder.buf) <= builder.buf && |builder.buf| <= |old(builder.buf)| + CostOfEntries(entries)
    ensures builder.hasDuplicateKeys <==>
      old(builder.hasDuplicateKeys) || exists j :: 0 <= j < |entries| && !AllDistinct(entries[j].value)
    decreases tree, 0
  {
    hide Builder.Valid;
    hide DistinctKeys;
    hide Interleaved;
    hide CanonicalEntries;
    hide CostOfEntries;
    NoEntries(entries);
    ghost var buf, meaning, duplicates := builder.buf, builder.meaning, builder.hasDuplicateKeys;
    for i := 0 to |entries|
      invariant builder.Valid() && builder.meaning == meaning + Interleaved(CanonicalEntries(entries[..i]))
      invariant buf <= builder.buf && |builder.buf| <= |buf| + CostOfEntries(entries[..i])
      invariant builder.hasDuplicateKeys <==> duplicates || exists j :: 0 <= j < i && !AllDistinct(entries[j].value)
    {
      OneMoreEntry(entries, i);
      var _ := builder.AddKey(entries[i].key);
      Add(builder, entries[i].value);
    }
    assert entries[..|entries|] == entries;
  }

  method AddMap(builder: Builder, entries: seq<Entry>, ghost tree: Tree)
    requires builder.Valid() && tree == Map(entries) && InRange(tree) && |builder.buf| + Cost(tree) < MAX_SIZE
    modifies builder
    ensures builder.Valid() && builder.meaning == old(builder.meaning) + [Canonical(tree)]
    ensures old(builder.buf) <= builder.buf && |builder.buf| <= |old(builder.buf)| + Cost(tree)
    ensures builder.hasDuplicateKeys <==> old(builder.hasDuplicateKeys) || !AllDistinct(tree)
    decreases tree, 1
  {
    hide Builder.Valid;
    hide DistinctKeys;
    hide Interleaved;
    hide CanonicalEntries;
    hide CostOfEntries;
    hide EntriesOf;
    hide KeysAlternate;
    hide SortEntries;
    var start := |builder.stack|;
    builder.SameDepth();
    ghost var meaning := builder.meaning;
    AddEntries(builder, entries, tree);
    builder.SameDepth();
    EntriesOfInterleaved(meaning, CanonicalEntries(entries));
    assert builder.meaning[..start] == meaning;
    var _ := builder.EndMap(start);
  }

  /** The round trip: building a tree, finishing, and reading from the root yields that tree and no other, for any
      sharing flags and any forced minimum width. */
  method Serialize(tree: Tree, shareKeys: bool, shareStrings: bool, force: BitWidth)
    returns (buf: seq<byte>, duplicates: bool)
    requires InRange(tree) && Cost(tree) + 64 < MAX_SIZE
    ensures |buf| >= 2 && Reads(buf, GetRoot(buf), Canonical(tree))
    ensures forall t: Tree :: Reads(buf, GetRoot(buf), t) ==> t == Canonical(tree)
    ensures duplicates <==> !AllDistinct(tree)
  {
    var builder := new Builder(shareKeys, shareStrings);
    builder.ForceMinimumBitWidth(force);
    Add(builder, tree);
    builder.SameDepth();
    builder.Finish();
    buf, duplicates := builder.buf, builder.hasDuplicateKeys;
    forall t: Tree | Reads(buf, GetRoot(buf), t)
      ensures t == Canonical(tree)
    {
      ReadsOneTree(buf, GetRoot(buf), t, Canonical(tree));
    }
  }

  // ----- what the canonical form leaves as it is -----

  /** Keys have no NUL and maps are sorted. */
  ghost predicate InOrder(tree: Tree)
    decreases tree
  {
    match tree
    case Key(k) => 0 !in k
    case Vector(elements) => forall i :: 0 <= i < |elements| ==> InOrder(elements[i])
    case Map(entries) =>
      SortedKeys(entries) && forall i :: 0 <= i < |entries| ==> 0 !in entries[i].key && InOrder(entries[i].value)
    case _ => true
  }

  lemma {:induction false} CanonicalOfOrdered(tree: Tree)
    requires InOrder(tree)
    ensures Canonical(tree) == tree
    decreases tree
  {
    match tree
    case Key(k) => NothingToCut(k);
    case Vector(elements) => CanonicalOfAll(elements);
    case Map(entries) =>
      CanonicalOfEntries(entries);
      SortedIsFixed(entries);
    case _ =>
  }

  lemma {:induction false} NothingToCut(k: seq<byte>)
    requires 0 !in k
    ensures UpToNul(k) == k
  {
    if k != [] {
      assert k[0] in k && k == [k[0]] + k[1..];
      NothingToCut(k[1..]);
    }
  }

  lemma {:induction false} CanonicalOfAll(trees: seq<Tree>)
    requires forall i :: 0 <= i < |trees| ==> InOrder(trees[i])
    ensures CanonicalAll(trees) == trees
    decreases trees
  {
    if trees != [] {
      CanonicalOfAll(trees[..|trees| - 1]);
      CanonicalOfOrdered(trees[|trees| - 1]);
    }
  }

  lemma {:induction false} CanonicalOfEntries(entries: seq<Entry>)
    requires forall i :: 0 <= i < |entries| ==> 0 !in entries[i].key && InOrder(entries[i].value)
    ensures CanonicalEntries(entries) == entries
    decreases entries
  {
    if entries != [] {
      CanonicalOfEntries(entries[..|entries| - 1]);
      NothingToCut(entries[|entries| - 1].key);
      CanonicalOfOrdered(entries[|entries| - 1].value);
    }
  }

  lemma {:induction false} CanonicalEntryAt(entries: seq<Entry>, i: nat)
    requires i < |entries| && 0 !in entries[i].key
    ensures CanonicalEntries(entries)[i] == Entry(entries[i].key, Canonical(entries[i].value))
  {
    if i < |entries| - 1 {
      CanonicalEntryAt(entries[..|entries| - 1], i);
    } else {
      NothingToCut(entries[i].key);
    }
  }

  /** A map with distinct keys, however it is ordered, has under each key what was added under it, and nothing
      elsewhere. */
  lemma CanonicalMapFinds(entries: seq<Entry>, key: seq<byte>)
    requires DistinctKeys(entries) && forall i :: 0 <= i < |entries| ==> 0 !in entries[i].key
    ensures SortedKeys(Canonical(Map(entries)).entries) && DistinctKeys(Canonical(Map(entries)).entries)
    ensures Find(Canonical(Map(entries)).entries, key) ==
      match Find(entries, key) case Some(value) => Some(Canonical(value)) case None => None
  {
    hide Compare;
    hide SortEntries;
    hide CanonicalEntries;
    hide SortedKeys;
    hide Find;
    hide UpToNul;
    var cut := CanonicalEntries(entries);
    forall i | 0 <= i < |entries|
      ensures cut[i] == Entry(entries[i].key, Canonical(entries[i].value))
    {
      CanonicalEntryAt(entries, i);
    }
    SortSorts(cut);
    SortKeepsDistinct(cut);
    SortKeepsFinds(cut, key);
    FindsNone(cut, key);
    FindsNone(entries, key);
    if i :| 0 <= i < |entries| && entries[i].key == key {
      FindsAt(entries, key, i);
      FindsAt(cut, key, i);
    }
  }

  /** A map built with distinct keys answers every lookup as its association list does. */
  method BuildAndLookUp(entries: seq<Entry>, shareKeys: bool, shareStrings: bool, force: BitWidth, key: seq<byte>)
    returns (buf: seq<byte>, r: Reference)
    requires InRange(Map(entries)) && Cost(Map(entries)) + 64 < MAX_SIZE
    requires DistinctKeys(entries) && forall i :: 0 <= i < |entries| ==> 0 !in entries[i].key
    ensures Reads(buf, r, match Find(entries, key) case Some(value) => Canonical(value) case None => Null)
  {
    var duplicates;
    buf, duplicates := Serialize(Map(entries), shareKeys, shareStrings, force);
    CanonicalMapFinds(entries, key);
    var root := GetRoot(buf);
    assert Reads(buf, root, Canonical(Map(entries)));
    r := MapAt(buf, Indirect(buf, root.pos, root.parentWidth), root.byteWidth, key, Canonical(Map(entries)).entries);
  }
}
