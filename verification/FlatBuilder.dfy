/** Building FlatBuffers tables: the 32-bit builder of `flatbuffer_builder.h`.

    The bytes are in one `vector_downward`: the data, and in its scratch area the offsets of the vtables and above
    them the fields of the table under construction. The ghost fields say what these bytes are, and record what was
    built: every finished table with its fields, and every string. */
module FlatBuilder {
  import opened Arithmetic

  import opened Bytes

  import opened LittleEndian

  import opened Tables

  import opened VectorDownwards

  import opened FlatTables

  const MAX_BUFFER_SIZE := 0x7FFF_FFFF

  /** The vtables are whole and the finished tables read back. */
  ghost predicate Built(data: seq<byte>, vtables: seq<nat>, tables: seq<(nat, seq<Added>)>) {
    && (forall i :: 0 <= i < |vtables| ==> VTableAt(data, vtables[i]))
    && (forall i :: 0 <= i < |tables| ==> TableAt(data, tables[i].0, tables[i].1) && ProperFields(tables[i].1))
  }

  lemma BuiltMoves(more: seq<byte>, data: seq<byte>, vtables: seq<nat>, tables: seq<(nat, seq<Added>)>)
    requires Built(data, vtables, tables)
    ensures Built(more + data, vtables, tables)
  {
    forall i | 0 <= i < |vtables|
      ensures VTableAt(more + data, vtables[i])
    {
      VTableAtMoves(more, data, vtables[i]);
    }
    forall i | 0 <= i < |tables|
      ensures TableAt(more + data, tables[i].0, tables[i].1)
    {
      TableMoves(more, data, tables[i].0, tables[i].1);
    }
  }

  /** The older bytes are behind the newer ones. */
  predicate EndsWith(data: seq<byte>, before: seq<byte>) { |before| <= |data| && data[|data| - |before|..] == before }

  lemma FrontGrows(more: seq<byte>, data: seq<byte>, before: seq<byte>)
    requires EndsWith(data, before)
    ensures EndsWith(more + data, before)
  {}

  lemma EndsTransitively(data: seq<byte>, body: seq<byte>, before: seq<byte>)
    requires EndsWith(data, body) && EndsWith(body, before)
    ensures EndsWith(data, before)
  {}

  /** The strings and the vectors read back. */
  ghost predicate ObjectsAt(data: seq<byte>, pool: seq<nat>, strings: seq<(nat, seq<byte>)>,
                            vectors: seq<(nat, Listed)>) {
    && (forall i :: 0 <= i < |pool| ==> StringWhole(data, pool[i]))
    && (forall i :: 0 <= i < |strings| ==> StringAt(data, strings[i].0, strings[i].1))
    && (forall i :: 0 <= i < |vectors| ==> VectorAt(data, vectors[i].0, vectors[i].1))
  }

  lemma ObjectsMove(more: seq<byte>, data: seq<byte>, pool: seq<nat>, strings: seq<(nat, seq<byte>)>,
                    vectors: seq<(nat, Listed)>)
    requires ObjectsAt(data, pool, strings, vectors)
    ensures ObjectsAt(more + data, pool, strings, vectors)
  {
    hide VectorAt;
    hide StringWhole;
    hide StringBytes;
    forall i | 0 <= i < |pool|
      ensures StringWhole(more + data, pool[i])
    {
      StringMoves(more, data, pool[i]);
    }
    forall i | 0 <= i < |strings|
      ensures StringAt(more + data, strings[i].0, strings[i].1)
    {
      StringMoves(more, data, strings[i].0);
    }
    forall i | 0 <= i < |vectors|
      ensures VectorAt(more + data, vectors[i].0, vectors[i].1)
    {
      VectorMoves(more, data, vectors[i].0, vectors[i].1);
    }
  }

  /** No field is wider than the alignment of the buffer. */
  ghost predicate Narrow(fields: seq<Added>, minAlign: nat) {
    forall i :: 0 <= i < |fields| ==> Width(fields[i]) <= minAlign
  }

  /** The vector is no wider than the alignment of the buffer. */
  predicate Covered(v: Listed, minAlign: nat) { minAlign >= 4 && (v.Count() > 0 ==> v.Stride() <= minAlign) }

  ghost predicate Tracked(tables: seq<(nat, seq<Added>)>, vectors: seq<(nat, Listed)>, fields: seq<Added>,
                          minAlign: nat) {
    && IsByteWidth(minAlign) && Narrow(fields, minAlign) && (tables != [] ==> minAlign >= 4)
    && (forall i :: 0 <= i < |tables| ==> Narrow(tables[i].1, minAlign))
    && (forall i :: 0 <= i < |vectors| ==> Covered(vectors[i].1, minAlign))
  }

  lemma TrackedGrows(tables: seq<(nat, seq<Added>)>, vectors: seq<(nat, Listed)>, fields: seq<Added>, minAlign: nat,
                     w: nat)
    requires Tracked(tables, vectors, fields, minAlign) && IsByteWidth(w) && w >= minAlign
    ensures Tracked(tables, vectors, fields, w)
  {
    forall i | 0 <= i < |tables|
      ensures Narrow(tables[i].1, w)
    {
      assert Narrow(tables[i].1, minAlign);
    }
  }

  lemma TrackedOne(tables: seq<(nat, seq<Added>)>, vectors: seq<(nat, Listed)>, fields: seq<Added>, minAlign: nat,
                   a: Added)
    requires Tracked(tables, vectors, fields, minAlign) && Width(a) <= minAlign
    ensures Tracked(tables, vectors, fields + [a], minAlign)
  {}

  lemma TrackedTable(tables: seq<(nat, seq<Added>)>, vectors: seq<(nat, Listed)>, fields: seq<Added>, minAlign: nat,
                     loc: nat)
    requires Tracked(tables, vectors, fields, minAlign) && minAlign >= 4
    ensures Tracked(tables + [(loc, fields)], vectors, [], minAlign)
  {}

  /** The fields added so far to the table that began at `start`, where they lie, and the highest of them. */
  ghost predicate Adding(data: seq<byte>, start: nat, locs: seq<FieldLoc>, fields: seq<Added>, highest: nat) {
    && |locs| == |fields| && ProperFields(fields) && start <= |data|
    && (forall i :: 0 <= i < |locs| ==>
          locs[i].id == fields[i].field && start < locs[i].off <= |data| && ElementAt(data, locs[i].off, fields[i]))
    && (forall i :: 0 <= i < |locs| ==> locs[i].id <= highest) && highest % 2 == 0 && highest < 0xFFFE
  }

  lemma AddingMoves(more: seq<byte>, data: seq<byte>, start: nat, locs: seq<FieldLoc>, fields: seq<Added>, highest: nat)
    requires Adding(data, start, locs, fields, highest)
    ensures Adding(more + data, start, locs, fields, highest)
  {
    forall i | 0 <= i < |locs|
      ensures ElementAt(more + data, locs[i].off, fields[i])
    {
      ElementMoves(more, data, locs[i].off, fields[i]);
    }
  }

  lemma AddingOne(data: seq<byte>, start: nat, locs: seq<FieldLoc>, fields: seq<Added>, highest: nat, off: nat,
                  a: Added)
    requires Adding(data, start, locs, fields, highest) && ProperField(a.field) && !HasField(fields, a.field)
    requires start < off <= |data| && ElementAt(data, off, a)
    ensures Adding(data, start, locs + [FieldLoc(off, a.field)], fields + [a], Max(highest, a.field))
  {
    hide ElementAt;
  }

  lemma NothingAdded(data: seq<byte>)
    ensures Adding(data, |data|, [], [], 0)
  {}

  /** The fields of the table have their places in a vtable of `n` bytes. */
  lemma LocsAreProper(data: seq<byte>, start: nat, locs: seq<FieldLoc>, fields: seq<Added>, highest: nat, n: nat,
                      loc: nat)
    requires Adding(data, start, locs, fields, highest) && n == Max(highest + 2, 4) && |data| < loc < start + 0x1_0000
    ensures ProperLocs(n, locs, loc) && n % 2 == 0 && 4 <= n < 0x1_0000
  {
    forall i | 0 <= i < |locs|
      ensures ProperField(locs[i].id) && locs[i].id + 2 <= n && locs[i].off < loc < locs[i].off + 0x1_0000
    {
      assert locs[i].id == fields[i].field && ProperField(fields[i].field);
    }
    forall i, j | 0 <= i < j < |locs|
      ensures locs[i].id != locs[j].id
    {
      assert locs[i].id == fields[i].field && locs[j].id == fields[j].field;
    }
  }

  lemma FullWidth(size: nat, w: nat)
    requires IsByteWidth(w) && size >= w && (size - w) % w == 0
    ensures Aligned(size, w)
  {}

  lemma ThreeInARow(a: seq<byte>, b: seq<byte>, c: seq<byte>)
    ensures a + b + c == a + (b + c)
  {}

  lemma FourInARow(a: seq<byte>, b: seq<byte>, c: seq<byte>, d: seq<byte>)
    ensures a + b + c + d == a + b + (c + d) == a + (b + c + d)
  {}

  /** The table, its offset leading to a vtable in the older data. */
  lemma TableWithOldVTable(data: seq<byte>, more: seq<byte>, start: nat, locs: seq<FieldLoc>, fields: seq<Added>,
                           highest: nat,
                           n: nat, loc: nat, vt: nat)
    requires Aligned(loc, 4)
    requires Adding(data, start, locs, fields, highest) && n == Max(highest + 2, 4)
      && loc == |more + data| + 4 < start + 0x1_0000 && loc < 0x8000_0000
    requires ProperLocs(n, locs, loc) && VTableAt(data, vt)
      && VTableSlice(data, vt) == VTableBytes(n, loc - start, locs, loc)
    ensures TableAt(ToBytes(vt - loc, 4) + more + data, loc, fields)
  {
    hide Aligned;
    hide ToBytes;
    hide FromBytes;
    hide VTableBytes;
    hide ElementAt;
    hide ProperLocs;
    hide VTableAt;
    hide VTableSlice;
    hide TableAt;
    LocsAreProper(data, start, locs, fields, highest, n, loc);
    OldVTableIsBehind(data, vt);
    var front := ToBytes(vt - loc, 4) + more;
    var final := front + data;
    PatchReadsBack([], more + data, vt - loc);
    FourInARow([], ToBytes(vt - loc, 4), more, data);
    assert [] + ToBytes(vt - loc, 4) == ToBytes(vt - loc, 4);
    AddingMoves(front, data, start, locs, fields, highest);
    VTableAtMoves(front, data, vt);
    assert Written(final, loc, vt, n, loc - start, locs, fields);
    WrittenReadsBack(final, loc, vt, n, loc - start, locs, fields);
  }

  lemma OldVTableIsBehind(data: seq<byte>, vt: nat)
    requires VTableAt(data, vt)
    ensures vt <= |data|
  {}

  lemma EvenOnFours(n: nat, m: nat)
    requires n % 2 == 0 && Aligned(m, 4)
    ensures Aligned(n + m, 2)
  {
    var a, b := n / 2, m / 4;
    assert n + m == (a + 2 * b) * 2;
    MultipleHasNoRest(a + 2 * b, 2);
  }

  lemma NewVTableIsWhole(vtable: seq<byte>, rest: seq<byte>, n: nat)
    requires |vtable| == n >= 4 && n % 2 == 0 && ReadUInt(vtable, 0, 2) == n && |rest| >= 4 && Aligned(|rest|, 4)
    ensures VTableAt(vtable + rest, n + |rest|) && VTableSlice(vtable + rest, n + |rest|) == vtable
  {
    hide FromBytes;
    var data := vtable + rest;
    assert data[0..0 + |vtable|] == vtable;
    SliceRead(data, 0, vtable, 0);
    EvenOnFours(n, |rest|);
    hide Aligned;
    hide ReadUInt;
  }

  lemma NewVTableInFront(vtable: seq<byte>, more: seq<byte>, data: seq<byte>, n: nat, loc: nat)
    requires 4 <= |vtable| == n < 0x8000_0000 && n % 2 == 0 && ReadUInt(vtable, 0, 2) == n && loc == |more + data| + 4
      && Aligned(loc, 4)
    ensures var final := vtable + ToBytes(n, 4) + more + data;
      && |final| == n + loc && InBuffer(final, n, 4) && ReadInt(final, n, 4) == n
      && VTableAt(final, n + loc) && VTableSlice(final, n + loc) == vtable
  {
    hide ToBytes;
    hide ReadInt;
    hide ReadUInt;
    hide VTableAt;
    hide VTableSlice;
    FourInARow(vtable, ToBytes(n, 4), more, data);
    ThreeInARow(ToBytes(n, 4), more, data);
    PatchReadsBack(vtable, more + data, n);
    NewVTableIsWhole(vtable, ToBytes(n, 4) + more + data, n);
  }

  /** The table with its own vtable in front. */
  lemma TableWithNewVTable(data: seq<byte>, more: seq<byte>, start: nat, locs: seq<FieldLoc>, fields: seq<Added>,
                           highest: nat,
                           n: nat, loc: nat)
    requires Aligned(loc, 4)
    requires Adding(data, start, locs, fields, highest) && n == Max(highest + 2, 4)
      && loc == |more + data| + 4 < start + 0x1_0000
    requires loc + n < 0x8000_0000 && ProperLocs(n, locs, loc)
    ensures var final := VTableBytes(n, loc - start, locs, loc) + ToBytes(n, 4) + more + data;
      TableAt(final, loc, fields) && VTableAt(final, n + loc)
  {
    hide Aligned;
    hide ToBytes;
    hide FromBytes;
    hide VTableBytes;
    hide ElementAt;
    hide ProperLocs;
    hide ProperFields;
    hide VTableAt;
    hide VTableSlice;
    hide TableAt;
    hide ReadUInt;
    hide ReadInt;
    LocsAreProper(data, start, locs, fields, highest, n, loc);
    var vtable := VTableBytes(n, loc - start, locs, loc);
    var front := vtable + ToBytes(n, 4) + more;
    VTableSize(n, loc - start, locs, loc);
    NewVTableInFront(vtable, more, data, n, loc);
    AddingMoves(front, data, start, locs, fields, highest);
    assert Written(front + data, loc, n + loc, n, loc - start, locs, fields);
    WrittenReadsBack(front + data, loc, n + loc, n, loc - start, locs, fields);
  }

  /** What happens to the vtable of `n` bytes in front of the data: it is popped in favour of an older one with the
      same bytes, or it stays and is remembered. */
  ghost predicate Shared(data: seq<byte>, n: nat, vtables: seq<nat>, vt: nat, kept: seq<byte>, remembered: seq<nat>) {
    Reused(data, n, vtables, vt, kept) && remembered == if vt == |kept| then vtables + [vt] else vtables
  }

  ghost predicate Reused(data: seq<byte>, n: nat, vtables: seq<nat>, vt: nat, kept: seq<byte>) {
    && n <= |data|
    && ((vt in vtables && VTableAt(data, vt) && VTableSlice(data, vt) == data[..n] && kept == data[n..]) ||
        (vt == |data| && kept == data))
  }

  // ----- the scratch area -----

  /** A remembered field: a four-byte offset, a two-byte position and two bytes of padding. */
  function FieldBytes(loc: FieldLoc): (r: seq<byte>)
    ensures |r| == 8
  {
    ToBytes(loc.off, 4) + ToBytes(loc.id, 2) + Zeros(2)
  }

  function FieldEntries(locs: seq<FieldLoc>): (r: seq<byte>)
    ensures |r| == 8 * |locs|
  {
    if locs == [] then [] else FieldEntries(locs[..|locs| - 1]) + FieldBytes(locs[|locs| - 1])
  }

  function VTableEntries(vtables: seq<nat>): (r: seq<byte>)
    ensures |r| == 4 * |vtables|
  {
    if vtables == [] then [] else VTableEntries(vtables[..|vtables| - 1]) + ToBytes(vtables[|vtables| - 1], 4)
  }

  /** The offsets of the vtables, and above them the fields of the table under construction. */
  function ScratchBytes(vtables: seq<nat>,
                        locs: seq<FieldLoc>): seq<byte> { VTableEntries(vtables) + FieldEntries(locs) }

  lemma ScratchSize(vtables: seq<nat>, locs: seq<FieldLoc>)
    ensures |ScratchBytes(vtables, locs)| == 4 * |vtables| + 8 * |locs|
  {}

  lemma AnotherField(vtables: seq<nat>, locs: seq<FieldLoc>, loc: FieldLoc)
    ensures ScratchBytes(vtables, locs + [loc]) == ScratchBytes(vtables, locs) + FieldBytes(loc)
  {
    hide FieldBytes;
    assert (locs + [loc])[..|locs|] == locs;
    assert FieldEntries(locs + [loc]) == FieldEntries(locs) + FieldBytes(loc);
    ThreeInARow(VTableEntries(vtables), FieldEntries(locs), FieldBytes(loc));
  }

  lemma AnotherVTable(vtables: seq<nat>, vt: nat)
    ensures ScratchBytes(vtables + [vt], []) == ScratchBytes(vtables, []) + ToBytes(vt, 4)
  {
    hide ToBytes;
    assert (vtables + [vt])[..|vtables|] == vtables;
    assert VTableEntries(vtables + [vt]) == VTableEntries(vtables) + ToBytes(vt, 4);
    assert VTableEntries(vtables) + FieldEntries([]) == VTableEntries(vtables);
  }

  lemma WithoutFields(vtables: seq<nat>, locs: seq<FieldLoc>)
    ensures ScratchBytes(vtables, []) == ScratchBytes(vtables, locs)[..4 * |vtables|]
  {}

  lemma NoVTables()
    ensures ScratchBytes([], []) == []
  {}

  lemma {:induction false} FieldEntryIs(locs: seq<FieldLoc>, k: nat)
    requires k < |locs|
    ensures FieldEntries(locs)[8 * k..8 * k + 8] == FieldBytes(locs[k])
  {
    hide FieldBytes;
    var before := FieldEntries(locs[..|locs| - 1]);
    assert FieldEntries(locs) == before + FieldBytes(locs[|locs| - 1]);
    if k < |locs| - 1 {
      FieldEntryIs(locs[..|locs| - 1], k);
      assert FieldEntries(locs)[8 * k..8 * k + 8] == before[8 * k..8 * k + 8];
    } else {
      assert FieldEntries(locs)[8 * k..8 * k + 8] == FieldBytes(locs[k]);
    }
  }

  lemma FieldEntryAt(vtables: seq<nat>, locs: seq<FieldLoc>, k: nat)
    requires k < |locs|
    ensures var s := ScratchBytes(vtables, locs); var at := |s| - 8 * (|locs| - k);
      0 <= at && at + 8 <= |s| && s[at..at + 8] == FieldBytes(locs[k])
  {
    hide FieldBytes;
    hide FieldEntries;
    hide VTableEntries;
    FieldEntryIs(locs, k);
    SliceOfBack(VTableEntries(vtables), FieldEntries(locs), 8 * k, 8);
  }

  lemma {:induction false} VTableEntryIs(vtables: seq<nat>, i: nat)
    requires i < |vtables|
    ensures VTableEntries(vtables)[4 * i..4 * i + 4] == ToBytes(vtables[i], 4)
  {
    hide ToBytes;
    if i < |vtables| - 1 {
      VTableEntryIs(vtables[..|vtables| - 1], i);
    }
  }

  lemma VTableEntryAt(vtables: seq<nat>, locs: seq<FieldLoc>, i: nat)
    requires i < |vtables|
    ensures var s := ScratchBytes(vtables, locs); 4 * i + 4 <= |s| && s[4 * i..4 * i + 4] == ToBytes(vtables[i], 4)
  {
    hide ToBytes;
    hide FieldEntries;
    hide VTableEntries;
    VTableEntryIs(vtables, i);
    SliceOfFront(VTableEntries(vtables), FieldEntries(locs), 4 * i, 4);
  }

  lemma SliceOfFront(front: seq<byte>, back: seq<byte>, at: nat, n: nat)
    requires at + n <= |front|
    ensures (front + back)[at..at + n] == front[at..at + n]
  {}

  lemma SliceOfBack(front: seq<byte>, back: seq<byte>, at: nat, n: nat)
    requires at + n <= |back|
    ensures (front + back)[|front| + at..|front| + at + n] == back[at..at + n]
  {}

  lemma NumberReadsBack(x: nat, w: nat)
    requires IsByteWidth(w) && x < Limit(w)
    ensures FromBytes(ToBytes(x, w)) == x
  {
    UnsignedRoundTrip(x, w);
    SmallOverLarge(x, Limit(w));
  }

  lemma FieldReadsBack(loc: FieldLoc)
    requires loc.off < 0x1_0000_0000 && loc.id < 0x1_0000
    ensures FromBytes(FieldBytes(loc)[..4]) == loc.off && FromBytes(FieldBytes(loc)[4..6]) == loc.id
  {
    NumberReadsBack(loc.off, 4);
    NumberReadsBack(loc.id, 2);
    hide ToBytes;
    hide FromBytes;
    assert FieldBytes(loc)[..4] == ToBytes(loc.off, 4) && FieldBytes(loc)[4..6] == ToBytes(loc.id, 2);
  }

  /** The vtable in front of `before` has the distances of the first `k` fields. */
  ghost predicate VTableSoFar(data: seq<byte>, n: nat, objectSize: nat, locs: seq<FieldLoc>, k: nat, loc: nat,
                              before: seq<byte>) {
    4 <= n < 0x1_0000 && ProperLocs(n, locs, loc) && k <= |locs|
        && data == VTableBytes(n, objectSize, locs[..k], loc) + before
  }

  /** The place of field `k` is still empty; filling it is the next step. */
  lemma FieldIsProper(data: seq<byte>, n: nat, objectSize: nat, locs: seq<FieldLoc>, k: nat, loc: nat,
                      before: seq<byte>)
    requires objectSize < 0x1_0000 && k < |locs| && VTableSoFar(data, n, objectSize, locs, k, loc, before)
    ensures locs[k].id + 2 <= |data| && locs[k].id < 0x1_0000 && locs[k].off < loc && ReadUInt(data, locs[k].id, 2) == 0
    ensures VTableSoFar(Put2(data, locs[k].id, loc - locs[k].off), n, objectSize, locs, k + 1, loc, before)
  {
    assert ProperField(locs[k].id) && locs[k].id + 2 <= n;
    VTableStep(n, objectSize, locs, k, loc, before);
  }

  lemma ForgetVTables(data: seq<byte>, vtables: seq<nat>, tables: seq<(nat, seq<Added>)>)
    requires Built(data, vtables, tables)
    ensures Built(data, [], tables)
  {}

  // ----- the finished buffer -----

  ghost predicate IsTable(tables: seq<(nat, seq<Added>)>, o: nat) { exists i :: 0 <= i < |tables| && tables[i].0 == o }

  function IdentifierBytes(identifier: Option<seq<byte>>): (r: seq<byte>)
    requires identifier.Some? ==> |identifier.value| == 4
    ensures |r| == if identifier.Some? then 4 else 0
  {
    if identifier.Some? then identifier.value else []
  }

  /** The buffer begins with its size if prefixed, the offset of the root and the identifier. */
  predicate Headed(data: seq<byte>, root: nat, identifier: Option<seq<byte>>, sizePrefix: bool) {
    var at := if sizePrefix then 4 else 0;
    && (sizePrefix ==> InBuffer(data, 0, 4) && ReadUInt(data, 0, 4) == |data| - 4)
    && InBuffer(data, at, 4) && Target(data, at) == |data| - root >= at + 4
    && (identifier.Some? ==> InBuffer(data, at + 4, 4) && data[at + 4..at + 8] == identifier.value)
  }

  lemma FullAlign(size: nat, header: nat, w: nat)
    requires IsByteWidth(w) && w >= 4 && header % 4 == 0 && Aligned(size + header, w)
    ensures size % 4 == 0
  {}

  lemma HeadedByRoot(rest: seq<byte>, padded: seq<byte>, root: nat, identifier: Option<seq<byte>>)
    requires (identifier.Some? ==> |identifier.value| == 4) && rest == IdentifierBytes(identifier) + padded
    requires root <= |rest| < 0x7FFF_FFF0
    ensures Headed(ToBytes(|rest| - root + 4, 4) + rest, root, identifier, false)
  {
    FrontReadsBack(|rest| - root + 4, 4, rest);
    var data := ToBytes(|rest| - root + 4, 4) + rest;
    if identifier.Some? {
      assert data[4..8] == identifier.value;
    }
  }

  lemma PrefixedBySize(body: seq<byte>, root: nat, identifier: Option<seq<byte>>)
    requires Headed(body, root, identifier, false) && |body| < 0x7FFF_FFF0
    ensures Headed(ToBytes(|body|, 4) + body, root, identifier, true)
  {
    hide ToBytes;
    hide FromBytes;
    FrontReadsBack(|body|, 4, body);
    ScalarMoves(ToBytes(|body|, 4), body, 0, 4);
    if identifier.Some? {
      assert (ToBytes(|body|, 4) + body)[8..12] == body[4..8];
    }
  }

  // ----- reading the tables -----

  /** Every field that was added reads back: a scalar with its value, an offset leading to its object. */
  lemma FieldsReadBack(data: seq<byte>, vtables: seq<nat>, tables: seq<(nat, seq<Added>)>, i: nat, k: nat)
    requires Built(data, vtables, tables) && i < |tables| && k < |tables[i].1|
    ensures var pos, a := |data| - tables[i].0, tables[i].1[k];
      match a
      case AddedScalar(field, w, value) =>
          IsByteWidth(w) && forall default: nat :: GetField(data, pos, field, w, default) == value
      case AddedOffset(field, target) => GetPointer(data, pos, field) == Some(|data| - target)
  {
    hide GetOptionalFieldOffset;
    hide ReadUInt;
    assert TableAt(data, tables[i].0, tables[i].1);
    assert ReadsBack(data, |data| - tables[i].0, tables[i].1[k]);
  }

  /** Every field that was left out reads as its default. */
  lemma OmittedFieldsReadDefault(data: seq<byte>, vtables: seq<nat>, tables: seq<(nat, seq<Added>)>, i: nat,
                                 field: nat, w: nat, default: nat)
    requires Built(data, vtables, tables) && i < |tables| && ProperField(field) && !HasField(tables[i].1, field)
      && IsByteWidth(w)
    ensures var pos := |data| - tables[i].0;
      GetField(data, pos, field, w, default) == default && GetPointer(data, pos, field) == None
  {
    hide GetOptionalFieldOffset;
    assert TableAt(data, tables[i].0, tables[i].1);
  }

  /** Every vector reads back: its length, its numbers, and its offsets leading to their objects. */
  lemma VectorsReadBack(data: seq<byte>, pool: seq<nat>, strings: seq<(nat, seq<byte>)>, vectors: seq<(nat, Listed)>,
                        i: nat, k: nat)
    requires ObjectsAt(data, pool, strings, vectors) && i < |vectors| && k < vectors[i].1.Count()
    ensures var pos := |data| - vectors[i].0;
      ReadScalar(data, pos, 4) == vectors[i].1.Count() && match vectors[i].1
      case Numbers(w, values) => IsByteWidth(w) && ReadScalar(data, pos + 4 + w * k, w) == values[k]
      case Offsets(targets) => Target(data, pos + 4 + 4 * k) == |data| - targets[k]
  {
    hide ReadUInt;
    var o, v := vectors[i].0, vectors[i].1;
    assert VectorAt(data, vectors[i].0, vectors[i].1);
    assert EntryAt(data, |data| - o + 4, v, k);
  }

  /** In a finished buffer every element of a vector lies at a multiple of its size. */
  lemma ElementsAreAligned(data: seq<byte>, pool: seq<nat>, strings: seq<(nat, seq<byte>)>,
                           vectors: seq<(nat, Listed)>, tables: seq<(nat, seq<Added>)>, fields: seq<Added>,
                           minAlign: nat, i: nat, k: nat)
    requires ObjectsAt(data, pool, strings, vectors) && Tracked(tables, vectors, fields, minAlign)
    requires Aligned(|data|, minAlign) && i < |vectors| && k < vectors[i].1.Count()
    ensures var w := vectors[i].1.Stride();
      w > 0 && Aligned(|data| - vectors[i].0, 4) && Aligned(|data| - vectors[i].0 + 4 + w * k, w)
  {
    var o, v := vectors[i].0, vectors[i].1;
    assert VectorAt(data, vectors[i].0, vectors[i].1) && Covered(vectors[i].1, minAlign);
    MultiplesDiffer(|data|, o, minAlign, 4);
    MultiplesDiffer(|data|, o - 4, minAlign, v.Stride());
    hide VectorAt;
    AlignedShifts(|data| - (o - 4), v.Stride(), k);
  }

  lemma AlignedShifts(x: int, w: nat, k: nat)
    requires Aligned(x, w)
    ensures Aligned(x + w * k, w)
  {
    QuotientAndRest(x, w);
    Distributes(x / w, k, w);
    MultipleHasNoRest(x / w + k, w);
  }

  /** In a finished buffer every table and every field lies at a multiple of its size. */
  lemma FieldsAreAligned(data: seq<byte>, vtables: seq<nat>, tables: seq<(nat, seq<Added>)>,
                         vectors: seq<(nat, Listed)>, fields: seq<Added>, minAlign: nat, i: nat, k: nat)
    requires Built(data, vtables, tables) && Tracked(tables, vectors, fields, minAlign) && Aligned(|data|, minAlign)
    requires i < |tables| && k < |tables[i].1|
    ensures var pos, a := |data| - tables[i].0, tables[i].1[k];
      Aligned(pos, 4) && Width(a) > 0 && Aligned(pos + GetOptionalFieldOffset(data, pos, a.field), Width(a))
  {
    hide GetOptionalFieldOffset;
    hide ReadUInt;
    var pos, a := |data| - tables[i].0, tables[i].1[k];
    assert TableAt(data, tables[i].0, tables[i].1) && Narrow(tables[i].1, minAlign);
    assert ReadsBack(data, pos, a);
    MultiplesDiffer(|data|, tables[i].0, minAlign, 4);
    MultiplesDiffer(|data|, |data| - (pos + GetOptionalFieldOffset(data, pos, a.field)), minAlign, Width(a));
  }

  lemma MultiplesDiffer(x: nat, y: int, m: nat, w: nat)
    requires IsByteWidth(m) && IsByteWidth(w) && w <= m && Aligned(x, m) && Aligned(y, w)
    ensures Aligned(x - y, w)
  {
    var c := if w == m then 1 else if 2 * w == m then 2 else if 4 * w == m then 4 else 8;
    MultiplesOfMultiples(x, m, w, c, y);
  }

  lemma WholeSlice(s: seq<byte>, n: nat)
    requires n == |s|
    ensures s[n - n..n - n + n] == s
  {}

  /** The string with its length in front, and padding behind it. */
  lemma StringInBuffer(before: seq<byte>, padding: seq<byte>, s: seq<byte>)
    requires |s| < 0x8000_0000
    requires |s + (Single(NUL) + (padding + before))| % 4 == 0
    ensures var body := s + (Single(NUL) + (padding + before));
      var data := ToBytes(|s|, 4) + Zeros(PaddingBytes(|body|, 4)) + body;
      StringAt(data, |data|, s) && EndsWith(data, before) && |data| > |before|
  {
    var rest := padding + before;
    var body := s + (Single(NUL) + rest);
    AlignedNeedsNoPadding(|body|);
    NothingBetween(ToBytes(|s|, 4), body);
    FrontGrows(padding, before, before);
    FrontGrows(Single(NUL), rest, before);
    FrontGrows(s, Single(NUL) + rest, before);
    FrontGrows(ToBytes(|s|, 4), body, before);
    StringIsWhole(s, rest);
    hide ToBytes;
    hide StringAt;
    hide EndsWith;
  }

  lemma NothingInFront(back: seq<byte>)
    ensures Zeros(0) + back == back
  {}

  lemma NothingBetween(front: seq<byte>, back: seq<byte>)
    ensures front + Zeros(0) + back == front + back
  {}

  /** What is written later does not change what is in the pool. */
  lemma PoolMoves(pool: seq<nat>, strings: seq<(nat, seq<byte>)>, vectors: seq<(nat, Listed)>, before: seq<byte>,
                  data: seq<byte>, s: seq<byte>)
    requires ObjectsAt(before, pool, strings, vectors) && EndsWith(data, before)
    ensures forall i :: 0 <= i < |pool| ==>
      StringWhole(data, pool[i]) && (StringAt(data, pool[i], s) <==> StringAt(before, pool[i], s))
    ensures InPool(data, pool, s) <==> InPool(before, pool, s)
  {
    hide StringWhole;
    hide StringBytes;
    var more := data[..|data| - |before|];
    assert data == more + before;
    forall i | 0 <= i < |pool|
      ensures StringWhole(data, pool[i]) && (StringAt(data, pool[i], s) <==> StringAt(before, pool[i], s))
    {
      StringMoves(more, before, pool[i]);
    }
  }

  lemma PoolGrows(data: seq<byte>, pool: seq<nat>, strings: seq<(nat, seq<byte>)>, vectors: seq<(nat, Listed)>,
                  off: nat, s: seq<byte>)
    requires ObjectsAt(data, pool, strings, vectors) && StringAt(data, off, s)
    ensures ObjectsAt(data, pool + [off], strings, vectors)
  {}

  /** A string with these bytes is in the pool. */
  ghost predicate InPool(data: seq<byte>, pool: seq<nat>, s: seq<byte>) {
    exists i :: 0 <= i < |pool| && StringAt(data, pool[i], s)
  }

  lemma PatchedWithNewVTable(data: seq<byte>, more: seq<byte>, start: nat, locs: seq<FieldLoc>, fields: seq<Added>,
                             highest: nat,
                             n: nat, loc: nat, written: seq<byte>)
    requires Aligned(loc, 4)
    requires Adding(data, start, locs, fields, highest) && n == Max(highest + 2, 4)
      && loc == |more + data| + 4 < start + 0x1_0000
    requires loc + n < 0x8000_0000 && ProperLocs(n, locs, loc)
    requires written == VTableBytes(n, loc - start, locs, loc) + (ToBytes(0, 4) + more + data)
    ensures var final := Patched(written, loc, n);
      && |written| == n + loc && final == final[..|final| - |data|] + data
      && TableAt(final, loc, fields) && VTableAt(final, n + loc)
  {
    hide Aligned;
    var vtable := VTableBytes(n, loc - start, locs, loc);
    hide VTableBytes;
    hide ToBytes;
    hide Adding;
    hide TableAt;
    hide VTableAt;
    hide ProperLocs;
    FourInARow(vtable, ToBytes(0, 4), more, data);
    FourInARow(vtable, ToBytes(n, 4), more, data);
    PatchedInFront(vtable + ToBytes(0, 4), more + data, n);
    assert (vtable + ToBytes(0, 4))[..|vtable|] == vtable;
    TableWithNewVTable(data, more, start, locs, fields, highest, n, loc);
    SplitsOff(vtable + ToBytes(n, 4) + more, data);
  }

  lemma PatchedWithOldVTable(data: seq<byte>, more: seq<byte>, start: nat, locs: seq<FieldLoc>, fields: seq<Added>,
                             highest: nat,
                             n: nat, loc: nat, vt: nat, written: seq<byte>)
    requires Aligned(loc, 4)
    requires Adding(data, start, locs, fields, highest) && n == Max(highest + 2, 4)
      && loc == |more + data| + 4 < start + 0x1_0000
    requires loc < 0x8000_0000 && ProperLocs(n, locs, loc) && VTableAt(data, vt)
    requires written == VTableBytes(n, loc - start, locs, loc) + (ToBytes(0, 4) + more + data)
    requires VTableAt(written, vt) && VTableSlice(written, vt) == written[..n]
    ensures var final := Patched(written[n..], loc, vt - loc);
      final == final[..|final| - |data|] + data && TableAt(final, loc, fields)
  {
    hide Aligned;
    var vtable := VTableBytes(n, loc - start, locs, loc);
    hide VTableBytes;
    hide ToBytes;
    hide Adding;
    hide TableAt;
    hide VTableAt;
    hide ProperLocs;
    hide VTableSlice;
    FourInARow(vtable, ToBytes(0, 4), more, data);
    VTableAtMoves(vtable + ToBytes(0, 4) + more, data, vt);
    assert written[..n] == vtable && written[n..] == ToBytes(0, 4) + more + data;
    ThreeInARow(ToBytes(0, 4), more, data);
    ThreeInARow(ToBytes(vt - loc, 4), more, data);
    PatchedInFront(ToBytes(0, 4), more + data, vt - loc);
    assert ToBytes(0, 4)[..0] + ToBytes(vt - loc, 4) == ToBytes(vt - loc, 4);
    TableWithOldVTable(data, more, start, locs, fields, highest, n, loc, vt);
    SplitsOff(ToBytes(vt - loc, 4) + more, data);
  }

  lemma EndingIsProper(data: seq<byte>, start: nat, locs: seq<FieldLoc>, fields: seq<Added>, highest: nat, n: nat,
                       loc: nat)
    requires Adding(data, start, locs, fields, highest) && n == Max(highest + 2, 4) && |data| < loc < start + 0x1_0000
    ensures ProperLocs(n, locs, loc) && n % 2 == 0 && 4 <= n < 0x1_0000 && start <= |data|
  {
    LocsAreProper(data, start, locs, fields, highest, n, loc);
  }

  /** The table is ended: it reads back, and everything before is as it was. */
  lemma EndedTable(data: seq<byte>, more: seq<byte>, start: nat, locs: seq<FieldLoc>, fields: seq<Added>, highest: nat,
                   n: nat, loc: nat,
                   vtables: seq<nat>, tables: seq<(nat, seq<Added>)>, pool: seq<nat>, strings: seq<(nat, seq<byte>)>,
                   vectors: seq<(nat, Listed)>, written: seq<byte>, vt: nat, kept: seq<byte>, remembered: seq<nat>)
    requires Built(data, vtables, tables) && ObjectsAt(data, pool, strings, vectors) && Aligned(loc, 4)
    requires Adding(data, start, locs, fields, highest) && n == Max(highest + 2, 4)
      && loc == |more + data| + 4 < start + 0x1_0000
    requires loc + n < 0x8000_0000 && ProperLocs(n, locs, loc)
    requires written == VTableBytes(n, loc - start, locs, loc) + (ToBytes(0, 4) + more + data)
    requires (forall i :: 0 <= i < |vtables| ==> VTableAt(written, vtables[i]))
      && Shared(written, n, vtables, vt, kept, remembered)
    ensures 4 <= loc <= |kept|
    ensures var final := Patched(kept, loc, vt - loc);
      && Built(final, remembered, tables + [(loc, fields)]) && ObjectsAt(final, pool, strings, vectors)
      && EndsWith(final, data)
  {
    hide Aligned;
    hide VTableBytes;
    hide ToBytes;
    hide Patched;
    hide Adding;
    hide TableAt;
    hide VTableAt;
    hide ProperLocs;
    hide VTableSlice;
    var final := Patched(kept, loc, vt - loc);
    if vt == |written| && remembered == vtables + [vt] {
      PatchedWithNewVTable(data, more, start, locs, fields, highest, n, loc, written);
    } else {
      PatchedWithOldVTable(data, more, start, locs, fields, highest, n, loc, vt, written);
    }
    BuiltMoves(final[..|final| - |data|], data, vtables, tables);
    ObjectsMove(final[..|final| - |data|], data, pool, strings, vectors);
    AddingIsProper(data, start, locs, fields, highest);
  }

  lemma AddingIsProper(data: seq<byte>, start: nat, locs: seq<FieldLoc>, fields: seq<Added>, highest: nat)
    requires Adding(data, start, locs, fields, highest)
    ensures ProperFields(fields)
  {}

  lemma SplitsOff(front: seq<byte>, back: seq<byte>)
    ensures (front + back)[..|front + back| - |back|] == front
  {}

  /** All older vtables lie behind the new table, and are where they were. */
  lemma VTablesAreBehind(data: seq<byte>, before: seq<byte>, vtables: seq<nat>, tables: seq<(nat, seq<Added>)>)
    requires Built(before, vtables, tables) && EndsWith(data, before)
    ensures forall i :: 0 <= i < |vtables| ==> VTableAt(data, vtables[i]) && vtables[i] <= |before|
  {
    assert data == data[..|data| - |before|] + before;
    forall i | 0 <= i < |vtables|
      ensures VTableAt(data, vtables[i]) && vtables[i] <= |before|
    {
      VTableAtMoves(data[..|data| - |before|], before, vtables[i]);
    }
  }

  // ----- vectors -----

  lemma NoElements(len: nat, elemSize: nat)
    requires IsByteWidth(elemSize)
    ensures len == 0 <==> Place(elemSize, len) == 0
    ensures len <= Place(elemSize, len)
  {
    if len > 0 {
      ProductGrows(1, len, elemSize);
      ProductGrows(1, elemSize, len);
    }
  }

  /** Padding for a smaller power of two adds nothing. */
  lemma PaddedEnough(size: nat, w: nat)
    requires IsByteWidth(w) && size % 4 == 0
    ensures w <= 4 ==> PaddingBytes(size, w) == 0
    ensures (size + PaddingBytes(size, w)) % 4 == 0
  {
    var padding := PaddingBytes(size, w);
    if w == 8 {
      PaddingAligns(size, 8);
      MultiplesOfMultiples(size + padding, 8, 4, 2, 0);
    } else {
      var q := size / 4;
      assert size == 4 * q;
      QuarterPadding(q, w);
    }
    hide PaddingBytes;
  }

  lemma QuarterPadding(q: nat, w: nat)
    requires w == 1 || w == 2 || w == 4
    ensures PaddingBytes(4 * q, w) == 0
  {
    var c := if w == 1 then 4 else if w == 2 then 2 else 1;
    MultipleHasNoRest(0 - q * c, w);
  }

  /** Padding to the length first and to the elements then aligns both. */
  lemma StartIsAligned(before: seq<byte>, once: seq<byte>, data: seq<byte>, size: nat, alignment: nat)
    requires IsByteWidth(alignment)
    requires once == Zeros(if size == 0 then 0 else PaddingBytes(|before| + size, 4)) + before
    requires data == Zeros(if size == 0 then 0 else PaddingBytes(|once| + size, alignment)) + once
    ensures EndsWith(data, before) && |data| < |before| + 16 && (size == 0 ==> data == before)
    ensures size > 0 ==> Aligned(|data| + size, 4)
  {
    if size == 0 {
      NothingInFront(before);
    } else {
      PaddingAligns(|before| + size, 4);
      PaddingAligns(|once| + size, alignment);
      PaddedEnough(|once| + size, alignment);
      hide PaddingBytes;
      FrontGrows(Zeros(PaddingBytes(|before| + size, 4)), before, before);
      FrontGrows(Zeros(PaddingBytes(|once| + size, alignment)), once, before);
    }
  }

  lemma NoNumbers(w: nat, rest: seq<byte>)
    requires IsByteWidth(w)
    ensures NumberBytes([], w) + rest == rest
  {}

  lemma NumbersInFront(rest: seq<byte>, values: seq<nat>, w: nat)
    requires IsByteWidth(w) && forall i :: 0 <= i < |values| ==> values[i] < Limit(w)
    requires values != [] ==> Aligned(|rest| + Place(w, |values|), 4) && Aligned(|rest| + Place(w, |values|), w)
    requires |values| < 0x8000_0000
    ensures var body := NumberBytes(values, w) + rest;
      var data := ToBytes(|values|, 4) + Zeros(PaddingBytes(|body|, 4)) + body; VectorAt(data, |data|,
          Numbers(w, values))
  {
    hide ToBytes;
    hide VectorAt;
    hide NumberBytes;
    hide Place;
    hide Limit;
    hide PaddingBytes;
    hide Aligned;
    if values == [] {
      NoNumbers(w, rest);
      EmptyVector(rest, w);
    } else {
      RowSize(values, w, rest);
      var body := NumberBytes(values, w) + rest;
      AlignedIsDivisible(|body|);
      AlignedNeedsNoPadding(|body|);
      NothingBetween(ToBytes(|values|, 4), body);
      NumbersAreVector(values, w, rest);
    }
  }

  lemma AlignedIsDivisible(size: nat)
    requires Aligned(size, 4)
    ensures size % 4 == 0
  {}

  lemma EmptyVector(rest: seq<byte>, w: nat)
    requires IsByteWidth(w)
    ensures var data := ToBytes(0, 4) + Zeros(PaddingBytes(|rest|, 4)) + rest; VectorAt(data, |data|, Numbers(w, []))
  {
    PaddingAligns(|rest|, 4);
    var padded := Zeros(PaddingBytes(|rest|, 4)) + rest;
    NoNumbers(w, padded);
    hide ToBytes;
    hide VectorAt;
    hide PaddingBytes;
    hide NumberBytes;
    ThreeInARow(ToBytes(0, 4), Zeros(PaddingBytes(|rest|, 4)), rest);
    NumbersAreVector([], w, padded);
  }

  /** Padding and a length in front of a vector. */
  lemma EndedVector(before: seq<byte>, body: seq<byte>, n: nat)
    requires EndsWith(body, before)
    ensures var data := ToBytes(n, 4) + Zeros(PaddingBytes(|body|, 4)) + body;
      EndsWith(data, before) && |data| > |before|
  {
    hide ToBytes;
    hide PaddingBytes;
    FrontGrows(ToBytes(n, 4) + Zeros(PaddingBytes(|body|, 4)), body, before);
  }

  lemma StartedOffsets(rest: seq<byte>, n: nat)
    requires n > 0 ==> Aligned(|rest| + n * 4, 4)
    ensures n > 0 ==> |rest| % 4 == 0
  {}

  lemma NoOffsets(data: seq<byte>)
    ensures OffsetsInFront(data, [])
  {}

  lemma OffsetsEnd(body: seq<byte>, targets: seq<nat>)
    requires OffsetsInFront(body, targets) && (targets != [] ==> |body| % 4 == 0) && |targets| < 0x8000_0000
    ensures var data := ToBytes(|targets|, 4) + Zeros(PaddingBytes(|body|, 4)) + body;
      VectorAt(data, |data|, Offsets(targets))
  {
    var padded := Zeros(PaddingBytes(|body|, 4)) + body;
    PaddingAligns(|body|, 4);
    if targets == [] {
      NoOffsets(padded);
    } else {
      AlignedNeedsNoPadding(|body|);
      NothingInFront(body);
    }
    hide ToBytes;
    hide VectorAt;
    hide PaddingBytes;
    hide OffsetsInFront;
    ThreeInARow(ToBytes(|targets|, 4), Zeros(PaddingBytes(|body|, 4)), body);
    OffsetsAreVector(padded, targets);
  }

  lemma AlignedNeedsNoPadding(size: nat)
    requires size % 4 == 0
    ensures PaddingBytes(size, 4) == 0
  {}

  // ----- the builder -----

  class FlatBufferBuilder {
    const buf: VectorDownward
    var numFieldLoc: nat
    var maxVOffset: nat
    var nested: bool
    var finished: bool
    var minAlign: nat
    var forceDefaults: bool
    var dedupVTables: bool
    var stringPool: seq<nat>
    ghost var data: seq<byte>
    ghost var vtables: seq<nat>
    ghost var fieldLocs: seq<FieldLoc>
    ghost var tables: seq<(nat, seq<Added>)>
    ghost var strings: seq<(nat, seq<byte>)>
    ghost var vectors: seq<(nat, Listed)>
    ghost var tableStart: nat
    ghost var fields: seq<Added>

    ghost predicate Valid()
      reads this, buf, buf.memory
    {
      Mirrors() && Sound()
    }

    /** The two stacks of the buffer hold the data, and the offsets of the vtables and the fields. */
    ghost predicate Mirrors()
      reads this`data, this`vtables, this`fieldLocs, this`numFieldLoc, buf, buf.memory
    {
      && buf.Valid() && buf.maxSize == MAX_BUFFER_SIZE && buf.Data() == data
      && buf.Scratch() == ScratchBytes(vtables, fieldLocs) && numFieldLoc == |fieldLocs|
    }

    ghost predicate Sound()
      reads this`data, this`vtables, this`tables, this`stringPool, this`strings, this`vectors, this`fields
      reads this`minAlign, this`nested, this`tableStart, this`fieldLocs, this`maxVOffset
    {
      && Built(data, vtables, tables) && ObjectsAt(data, stringPool, strings, vectors)
          && Tracked(tables, vectors, fields, minAlign)
      && (nested ==> Adding(data, tableStart, fieldLocs, fields, maxVOffset))
      && (!nested ==> fieldLocs == [] && fields == [] && maxVOffset == 0)
    }

    constructor (initialSize: nat)
      ensures Valid() && fresh(buf) && buf.memory == null && data == [] && tables == [] && strings == []
        && vectors == [] && !nested
        && !finished && !forceDefaults && dedupVTables
    {
      buf := new VectorDownward(initialSize, 8, MAX_BUFFER_SIZE);
      data, vtables, fieldLocs, numFieldLoc, maxVOffset := [], [], [], 0, 0;
      nested, finished, minAlign, forceDefaults, dedupVTables := false, false, 1, false, true;
      stringPool, tables, strings, vectors, tableStart, fields := [], [], [], [], 0, [];
    }

    lemma SizeIsKnown()
      requires Valid()
      ensures buf.size == |data|
    {}

    lemma SizeIs()
      requires Mirrors()
      ensures buf.size == |data|
    {}

    // ----- appending in front -----

    /** More bytes in front leave the invariant in place. */
    lemma Extend(more: seq<byte>, before: seq<byte>)
      requires data == more + before && Built(before, vtables, tables)
        && ObjectsAt(before, stringPool, strings, vectors)
      requires Tracked(tables, vectors, fields, minAlign)
      requires nested ==> Adding(before, tableStart, fieldLocs, fields, maxVOffset)
      requires !nested ==> fieldLocs == [] && fields == [] && maxVOffset == 0
      ensures Sound()
    {
      hide Mirrors;
      hide Built;
      hide ObjectsAt;
      hide Tracked;
      hide Adding;
      BuiltMoves(more, before, vtables, tables);
      ObjectsMove(more, before, stringPool, strings, vectors);
      if nested {
        AddingMoves(more, before, tableStart, fieldLocs, fields, maxVOffset);
      }
    }

    method PushBytes(bytes: seq<byte>)
      requires Valid() && |data| < MAX_BUFFER_SIZE
      modifies `data, buf, buf.memory
      ensures buf.memory == old(buf.memory) || fresh(buf.memory)
      ensures Valid() && data == bytes + old(data)
    {
      hide Built;
      hide ObjectsAt;
      hide Tracked;
      hide Adding;
      hide VectorDownward.Valid;
      hide VectorDownward.Data;
      hide VectorDownward.Scratch;
      hide ScratchBytes;
      ghost var before := data;
      buf.Push(bytes);
      data := bytes + data;
      Extend(bytes, before);
    }

    method TrackMinAlign(w: nat)
      requires Valid() && IsByteWidth(w)
      modifies `minAlign
      ensures Valid() && minAlign == Max(old(minAlign), w)
    {
      hide Mirrors;
      hide Built;
      hide ObjectsAt;
      hide Adding;
      if w > minAlign {
        TrackedGrows(tables, vectors, fields, minAlign, w);
        minAlign := w;
      }
    }

    /** Pads so that after `len` more bytes the size is a multiple of `w`. */
    method PreAlign(len: nat, w: nat)
      requires Valid() && IsByteWidth(w) && |data| < MAX_BUFFER_SIZE
      modifies `data, `minAlign, buf, buf.memory
      ensures buf.memory == old(buf.memory) || fresh(buf.memory)
      ensures Valid() && minAlign == Max(old(minAlign), if len == 0 then 1 else w)
      ensures data == Zeros(if len == 0 then 0 else PaddingBytes(|old(data)| + len, w)) + old(data)
      ensures len > 0 ==> Aligned(|data| + len, w) && |data| < |old(data)| + w
    {
      hide Mirrors;
      hide Built;
      hide ObjectsAt;
      hide Adding;
      if len == 0 {
        assert data == Zeros(0) + data;
        return;
      }
      TrackMinAlign(w);
      PaddingAligns(|data| + len, w);
      SizeIs();
      PushBytes(Zeros(PaddingBytes(buf.size + len, w)));
    }

    method Align(w: nat)
      requires Valid() && IsByteWidth(w) && |data| < MAX_BUFFER_SIZE
      modifies `data, `minAlign, buf, buf.memory
      ensures buf.memory == old(buf.memory) || fresh(buf.memory)
      ensures Valid() && data == Zeros(PaddingBytes(|old(data)|, w)) + old(data) && |data| % w == 0
        && |data| < |old(data)| + w
      ensures minAlign == Max(old(minAlign), w)
    {
      hide Mirrors;
      hide Built;
      hide ObjectsAt;
      hide Tracked;
      hide Adding;
      TrackMinAlign(w);
      PaddingAligns(|data|, w);
      SizeIs();
      PushBytes(Zeros(PaddingBytes(buf.size, w)));
    }

    /** Writes one aligned number and returns its offset. */
    method PushElement(x: int, w: nat) returns (off: nat)
      requires Valid() && IsByteWidth(w) && |data| + w <= MAX_BUFFER_SIZE
      modifies `data, `minAlign, buf, buf.memory
      ensures buf.memory == old(buf.memory) || fresh(buf.memory)
      ensures Valid() && off == |data| <= |old(data)| + 2 * w && Aligned(off, w) && minAlign == Max(old(minAlign), w)
      ensures data == ToBytes(x, w) + Zeros(PaddingBytes(|old(data)|, w)) + old(data)
    {
      hide Mirrors;
      hide Built;
      hide ObjectsAt;
      hide Tracked;
      hide Adding;
      ghost var before := data;
      Align(w);
      PushBytes(ToBytes(x, w));
      ThreeInARow(ToBytes(x, w), Zeros(PaddingBytes(|before|, w)), before);
      SizeIs();
      off := buf.size;
      FullWidth(off, w);
    }

    // ----- fields -----

    /** Remembers where a field was written. */
    method TrackField(field: nat, off: nat, ghost a: Added)
      requires Valid() && nested && ProperField(field) && field == a.field && !HasField(fields, field)
      requires tableStart < off <= |data| < MAX_BUFFER_SIZE && ElementAt(data, off, a) && Width(a) <= minAlign
      modifies `fieldLocs, `numFieldLoc, `maxVOffset, `fields, buf, buf.memory
      ensures buf.memory == old(buf.memory) || fresh(buf.memory)
      ensures Valid() && fields == old(fields) + [a]
    {
      hide Built;
      hide ObjectsAt;
      hide Mirrors;
      hide ElementAt;
      hide Adding;
      hide Tracked;
      hide HasField;
      AddingOne(data, tableStart, fieldLocs, fields, maxVOffset, off, a);
      TrackedOne(tables, vectors, fields, minAlign, a);
      RememberField(FieldLoc(off, field));
      if field > maxVOffset {
        maxVOffset := field;
      }
      fields := fields + [a];
    }

    method RememberField(loc: FieldLoc)
      requires Mirrors() && |data| < MAX_BUFFER_SIZE
      modifies `fieldLocs, `numFieldLoc, buf, buf.memory
      ensures buf.memory == old(buf.memory) || fresh(buf.memory)
      ensures Mirrors() && fieldLocs == old(fieldLocs) + [loc]
    {
      hide VectorDownward.Valid;
      hide VectorDownward.Data;
      hide VectorDownward.Scratch;
      AnotherField(vtables, fieldLocs, loc);
      hide FieldBytes;
      hide ScratchBytes;
      buf.ScratchPush(FieldBytes(loc));
      numFieldLoc := numFieldLoc + 1;
      fieldLocs := fieldLocs + [loc];
    }

    /** Adds a scalar field, unless it has its default value. */
    method AddElement(field: nat, w: nat, value: nat, default: nat)
      requires Valid() && nested && ProperField(field) && !HasField(fields, field) && IsByteWidth(w) && value < Limit(w)
      requires |data| + 2 * w < MAX_BUFFER_SIZE
      modifies `data, `minAlign, `fieldLocs, `numFieldLoc, `maxVOffset, `fields, buf, buf.memory
      ensures buf.memory == old(buf.memory) || fresh(buf.memory)
      ensures Valid()
      ensures fields ==
        if value == default && !forceDefaults then old(fields) else old(fields) + [AddedScalar(field, w, value)]
      ensures |old(data)| <= |data| <= |old(data)| + 2 * w
    {
      hide Mirrors;
      hide Built;
      hide ObjectsAt;
      hide Tracked;
      hide HasField;
      hide ToBytes;
      hide FromBytes;
      hide PaddingBytes;
      if value == default && !forceDefaults {
        return;
      }
      var off := PushElement(value, w);
      FrontReadsBack(value, w, data[w..]);
      assert data == ToBytes(value, w) + data[w..];
      TrackField(field, off, AddedScalar(field, w, value));
    }

    /** Adds an offset to an object written before; the null offset is not stored. */
    method AddOffset(field: nat, target: nat)
      requires Valid() && nested && ProperField(field) && !HasField(fields, field)
        && target <= |data| <= MAX_BUFFER_SIZE - 16
      modifies `data, `minAlign, `fieldLocs, `numFieldLoc, `maxVOffset, `fields, buf, buf.memory
      ensures buf.memory == old(buf.memory) || fresh(buf.memory)
      ensures Valid() && fields == if target == 0 then old(fields) else old(fields) + [AddedOffset(field, target)]
      ensures |old(data)| <= |data| <= |old(data)| + 8
    {
      hide Mirrors;
      hide Built;
      hide ObjectsAt;
      hide Tracked;
      hide HasField;
      hide ToBytes;
      hide FromBytes;
      hide PaddingBytes;
      if target == 0 {
        return;
      }
      var value := ReferTo(target);
      ghost var aligned := data;
      AlignedNeedsNoPadding(|data|);
      var off := PushElement(value, 4);
      assert data == ToBytes(value, 4) + aligned;
      FrontReadsBack(value, 4, aligned);
      TrackField(field, off, AddedOffset(field, target));
    }

    /** The distance from where a four-byte offset will be written to the object at offset `off`. */
    method ReferTo(off: nat) returns (distance: nat)
      requires Valid() && 0 < off <= |data| <= MAX_BUFFER_SIZE - 16
      modifies `data, `minAlign, buf, buf.memory
      ensures buf.memory == old(buf.memory) || fresh(buf.memory)
      ensures Valid() && distance == |data| - off + 4 && |data| % 4 == 0 && |data| < |old(data)| + 4
      ensures data == Zeros(PaddingBytes(|old(data)|, 4)) + old(data) && minAlign == Max(old(minAlign), 4)
    {
      Align(4);
      SizeIs();
      distance := buf.size - off + 4;
    }

    // ----- tables -----

    method StartTable() returns (start: nat)
      requires Valid() && !nested
      modifies `nested, `tableStart
      ensures Valid() && nested && start == tableStart == |data|
    {
      SizeIs();
      hide Mirrors;
      hide Built;
      hide ObjectsAt;
      hide Tracked;
      NothingAdded(data);
      hide Adding;
      nested := true;
      start := buf.size;
      tableStart := start;
    }

    /** Writes two bytes over those at position `at`. */
    method PutAt(at: nat, x: nat)
      requires Mirrors() && at + 2 <= |data|
      modifies `data, buf.memory
      ensures Mirrors() && data == Put2(old(data), at, x)
    {
      hide VectorDownward.Valid;
      hide VectorDownward.Data;
      hide VectorDownward.Scratch;
      hide ToBytes;
      hide ScratchBytes;
      SizeIs();
      buf.WriteAt(buf.size - at, ToBytes(x, 2));
      data := Put2(data, at, x);
    }

    /** The field that was remembered as number `k`. */
    method FieldAt(k: nat) returns (loc: FieldLoc)
      requires Mirrors() && k < |fieldLocs| && fieldLocs[k].off < 0x1_0000_0000 && fieldLocs[k].id < 0x1_0000
      ensures loc == fieldLocs[k]
    {
      hide VectorDownward.Valid;
      hide VectorDownward.Data;
      hide VectorDownward.Scratch;
      hide ToBytes;
      hide FromBytes;
      hide FieldBytes;
      FieldEntryAt(vtables, fieldLocs, k);
      hide ScratchBytes;
      var bytes := buf.ScratchAt(buf.scratch - 8 * (numFieldLoc - k), 8);
      FieldReadsBack(fieldLocs[k]);
      loc := FieldLoc(FromBytes(bytes[..4]), FromBytes(bytes[4..6]));
    }

    /** The offset of the vtable that was remembered as number `i`. */
    method VTableOffset(i: nat) returns (vt: nat)
      requires Mirrors() && i < |vtables| && vtables[i] < 0x1_0000_0000
      ensures vt == vtables[i]
    {
      hide VectorDownward.Valid;
      hide VectorDownward.Data;
      hide VectorDownward.Scratch;
      hide ToBytes;
      hide FromBytes;
      VTableEntryAt(vtables, fieldLocs, i);
      hide ScratchBytes;
      var bytes := buf.ScratchAt(4 * i, 4);
      NumberReadsBack(vtables[i], 4);
      vt := FromBytes(bytes);
    }

    /** Writes the vtable in front of the buffer: zeros, the two sizes, and the distance of each field. */
    method WriteVTable(n: nat, objectSize: nat, loc: nat)
      requires Mirrors() && |data| < MAX_BUFFER_SIZE
      requires 4 <= n < 0x1_0000 && objectSize < 0x1_0000 && loc < 0x8000_0000 && ProperLocs(n, fieldLocs, loc)
      modifies `data, buf, buf.memory
      ensures buf.memory == old(buf.memory) || fresh(buf.memory)
      ensures Mirrors() && data == VTableBytes(n, objectSize, fieldLocs, loc) + old(data)
    {
      hide VectorDownward.Valid;
      hide VectorDownward.Data;
      hide VectorDownward.Scratch;
      VTableBegins(n, objectSize, loc, data);
      hide ScratchBytes;
      hide Put2;
      hide VTableBytes;
      ghost var before := data;
      buf.Fill(n);
      data := Zeros(n) + data;
      PutAt(2, objectSize);
      PutAt(0, n);
      assert fieldLocs[..0] == [];
      WriteDistances(n, objectSize, loc, before);
      assert fieldLocs[..|fieldLocs|] == fieldLocs;
    }

    /** Writes the distance of field `k` from the table at its place in the vtable. */
    method WriteDistance(n: nat, objectSize: nat, loc: nat, k: nat, ghost before: seq<byte>)
      requires Mirrors() && objectSize < 0x1_0000 && loc < 0x8000_0000 && k < |fieldLocs|
      requires VTableSoFar(data, n, objectSize, fieldLocs, k, loc, before)
      modifies `data, buf.memory
      ensures Mirrors() && VTableSoFar(data, n, objectSize, fieldLocs, k + 1, loc, before)
    {
      hide Mirrors;
      hide Put2;
      hide VTableBytes;
      hide ReadUInt;
      FieldIsProper(data, n, objectSize, fieldLocs, k, loc, before);
      var field := FieldAt(k);
      assert ReadUInt(data, field.id, 2) == 0;
      hide VTableSoFar;
      PutAt(field.id, loc - field.off);
    }

    /** Writes the distance of every field. */
    method WriteDistances(n: nat, objectSize: nat, loc: nat, ghost before: seq<byte>)
      requires Mirrors() && objectSize < 0x1_0000 && loc < 0x8000_0000
      requires VTableSoFar(data, n, objectSize, fieldLocs, 0, loc, before)
      modifies `data, buf.memory
      ensures Mirrors() && VTableSoFar(data, n, objectSize, fieldLocs, |fieldLocs|, loc, before)
    {
      FieldCount();
      hide Mirrors;
      hide VTableSoFar;
      for k := 0 to numFieldLoc
        invariant Mirrors() && VTableSoFar(data, n, objectSize, fieldLocs, k, loc, before)
      {
        WriteDistance(n, objectSize, loc, k, before);
      }
    }

    lemma FieldCount()
      requires Mirrors()
      ensures numFieldLoc == |fieldLocs|
    {}

    lemma VTableCount()
      requires Mirrors() && fieldLocs == []
      ensures buf.scratch == 4 * |vtables|
    {
      ScratchSize(vtables, fieldLocs);
    }

    /** The older vtable with the same bytes as the one of `n` bytes in front. */
    method FindVTable(n: nat) returns (found: Option<nat>)
      requires Mirrors() && fieldLocs == [] && |data| < 0x8000_0000
      requires n <= |data| && forall i :: 0 <= i < |vtables| ==> VTableAt(data, vtables[i])
      ensures match found
        case Some(vt) => vt in vtables && VTableSlice(data, vt) == data[..n]
        case None => forall i :: 0 <= i < |vtables| ==> VTableSlice(data, vtables[i]) != data[..n]
    {
      hide ScratchBytes;
      hide VTableSlice;
      VTableCount();
      hide Mirrors;
      for i := 0 to buf.scratch / 4
        invariant forall j :: 0 <= j < i ==> VTableSlice(data, vtables[j]) != data[..n]
      {
        assert VTableAt(data, vtables[i]);
        var vt := VTableOffset(i);
        var same := SameAsFront(vt, n);
        if same {
          return Some(vt);
        }
      }
      return None;
    }

    /** The vtable at an offset has the same bytes as the `n` bytes in front. */
    method SameAsFront(vt: nat, n: nat) returns (same: bool)
      requires Mirrors() && n <= |data| && VTableAt(data, vt)
      ensures same <==> VTableSlice(data, vt) == data[..n]
    {
      hide VectorDownward.Valid;
      hide VectorDownward.Data;
      hide VectorDownward.Scratch;
      hide FromBytes;
      hide ScratchBytes;
      SizeIs();
      var front := buf.ReadAt(buf.size, n);
      var size := buf.ReadAt(vt, 2);
      var older := buf.ReadAt(vt, FromBytes(size));
      same := FromBytes(size) == n && older == front;
    }

    method ClearOffsets()
      requires Mirrors()
      modifies `fieldLocs, `numFieldLoc, `maxVOffset, buf
      ensures Mirrors() && fieldLocs == [] && maxVOffset == 0 && buf.memory == old(buf.memory)
    {
      ScratchSize(vtables, fieldLocs);
      WithoutFields(vtables, fieldLocs);
      hide ScratchBytes;
      buf.ScratchPop(numFieldLoc * 8);
      numFieldLoc, maxVOffset := 0, 0;
      fieldLocs := [];
    }

    /** Takes the vtable of `n` bytes in front back if there is an older one with the same bytes. */
    method ReuseVTable(n: nat, loc: nat) returns (vt: nat)
      requires Mirrors() && fieldLocs == [] && |data| < MAX_BUFFER_SIZE
      requires n + loc == |data| && forall i :: 0 <= i < |vtables| ==> VTableAt(data, vtables[i])
      modifies `data, buf
      ensures Mirrors() && buf.memory == old(buf.memory) && Reused(old(data), n, vtables, vt, data)
    {
      hide Mirrors;
      SizeIs();
      vt := buf.size;
      if dedupVTables {
        var found := FindVTable(n);
        if found.Some? {
          vt := found.value;
          PopTo(loc);
        }
      }
    }

    /** Keeps the vtable of `n` bytes in front and remembers it, or takes it back in favour of an older one. */
    method ShareVTable(n: nat, loc: nat) returns (vt: nat)
      requires Mirrors() && fieldLocs == [] && |data| < MAX_BUFFER_SIZE
      requires n + loc == |data| && forall i :: 0 <= i < |vtables| ==> VTableAt(data, vtables[i]) && vtables[i] < loc
      modifies `data, `vtables, buf, buf.memory
      ensures buf.memory == old(buf.memory) || fresh(buf.memory)
      ensures Mirrors() && Shared(old(data), n, old(vtables), vt, data, vtables)
    {
      hide Mirrors;
      hide VTableAt;
      hide VTableSlice;
      vt := ReuseVTable(n, loc);
      SizeIs();
      if vt == buf.size {
        RememberVTable(vt);
      }
    }

    method RememberVTable(vt: nat)
      requires Mirrors() && fieldLocs == [] && |data| < MAX_BUFFER_SIZE
      modifies `vtables, buf, buf.memory
      ensures buf.memory == old(buf.memory) || fresh(buf.memory)
      ensures Mirrors() && vtables == old(vtables) + [vt]
    {
      hide VectorDownward.Valid;
      hide VectorDownward.Data;
      hide VectorDownward.Scratch;
      AnotherVTable(vtables, vt);
      hide ToBytes;
      hide ScratchBytes;
      buf.ScratchPush(ToBytes(vt, 4));
      vtables := vtables + [vt];
    }

    /** Fills in the distance to the vtable. */
    method CloseTable(loc: nat, distance: int, ghost added: seq<Added>)
      requires 4 <= loc <= |data| && Built(Patched(data, loc, distance), vtables, tables + [(loc, added)])
      requires ObjectsAt(Patched(data, loc, distance), stringPool, strings, vectors)
        && Tracked(tables + [(loc, added)], vectors, [], minAlign)
      requires Mirrors() && fieldLocs == [] && maxVOffset == 0
      modifies `data, `nested, `tables, `fields, buf, buf.memory
      ensures buf.memory == old(buf.memory) || fresh(buf.memory)
      ensures Valid() && !nested && tables == old(tables) + [(loc, added)] && data == Patched(old(data), loc, distance)
    {
      hide Built;
      hide ObjectsAt;
      hide Tracked;
      hide VectorDownward.Valid;
      hide VectorDownward.Data;
      hide VectorDownward.Scratch;
      hide ToBytes;
      hide ScratchBytes;
      buf.WriteAt(loc, ToBytes(distance, 4));
      data := Patched(data, loc, distance);
      nested, tables, fields := false, tables + [(loc, added)], [];
    }

    /** Ends the table: its vtable is written, and taken back if an older one has the same bytes. Either way every
        field reads back, and so do those of all tables before. */
    method EndTable(start: nat) returns (loc: nat)
      requires Valid() && nested && start == tableStart && |data| + 0x1_0010 < MAX_BUFFER_SIZE
      requires |data| + PaddingBytes(|data|, 4) + 4 - start < 0x1_0000
      modifies `data, `minAlign, `vtables, `fieldLocs, `numFieldLoc, `maxVOffset, `nested, `tables, `fields, buf,
          buf.memory
      ensures buf.memory == old(buf.memory) || fresh(buf.memory)
      ensures Valid() && !nested && tables == old(tables) + [(loc, old(fields))]
      ensures |old(data)| < loc <= |data| && EndsWith(data, old(data))
    {
      hide Mirrors;
      hide Built;
      hide ObjectsAt;
      hide Tracked;
      hide Aligned;
      hide Adding;
      hide Patched;
      hide Shared;
      hide VTableBytes;
      hide ToBytes;
      hide VTableAt;
      hide ProperLocs;
      hide ProperFields;
      hide PaddingBytes;
      ghost var before, added, locs, highest, vts := data, fields, fieldLocs, maxVOffset, vtables;
      ghost var more := Zeros(PaddingBytes(|before|, 4));
      loc := PushElement(0, 4);
      var n := Max(maxVOffset + 2, 4);
      EndingIsProper(before, start, locs, added, highest, n, loc);
      WriteVTable(n, loc - start, loc);
      ghost var written := data;
      VTablesAreBehind(written, before, vts, tables);
      ClearOffsets();
      var vt := ShareVTable(n, loc);
      EndedTable(before, more, start, locs, added, highest, n, loc, vts, tables, stringPool, strings, vectors, written,
          vt,
          data, vtables);
      TrackedTable(tables, vectors, added, minAlign, loc);
      CloseTable(loc, vt - loc, added);
    }

    // ----- strings -----

    /** Writes a string: padding, a NUL, the bytes and their number. */
    method CreateString(s: seq<byte>) returns (off: nat)
      requires Valid() && !nested && |data| + |s| + 16 < MAX_BUFFER_SIZE
      modifies `data, `minAlign, `strings, buf, buf.memory
      ensures buf.memory == old(buf.memory) || fresh(buf.memory)
      ensures Valid() && off == |data| > |old(data)| && strings == old(strings) + [(off, s)] && StringAt(data, off, s)
      ensures EndsWith(data, old(data)) && minAlign == Max(old(minAlign), 4)
    {
      hide Mirrors;
      hide Built;
      hide ObjectsAt;
      hide Tracked;
      hide StringAt;
      hide ToBytes;
      hide PaddingBytes;
      hide EndsWith;
      ghost var before := data;
      ghost var padding := PushString(s);
      ghost var body := data;
      AlignedNeedsNoPadding(|body|);
      off := PushElement(|s|, 4);
      StringInBuffer(before, padding, s);
      Remember(off, s);
    }

    /** Padding, a NUL in front of it, and the bytes of the string in front of that. */
    method PushString(s: seq<byte>) returns (ghost padding: seq<byte>)
      requires Valid() && !nested && |data| + |s| + 16 < MAX_BUFFER_SIZE
      modifies `data, `minAlign, buf, buf.memory
      ensures buf.memory == old(buf.memory) || fresh(buf.memory)
      ensures Valid() && minAlign == Max(old(minAlign), 4)
      ensures data == s + (Single(NUL) + (padding + old(data))) && |padding| < 4 && |data| % 4 == 0
    {
      hide Mirrors;
      hide Sound;
      hide PaddingBytes;
      padding := Zeros(PaddingBytes(|data| + |s| + 1, 4));
      PreAlign(|s| + 1, 4);
      PushBytes(Single(NUL));
      PushBytes(s);
    }

    ghost method Remember(off: nat, s: seq<byte>)
      requires Valid() && StringAt(data, off, s)
      modifies `strings
      ensures Valid() && strings == old(strings) + [(off, s)]
    {
      hide Mirrors;
      hide Built;
      hide Tracked;
      hide StringAt;
      strings := strings + [(off, s)];
    }

    /** The bytes of the string at an offset. */
    method StringAtOffset(off: nat) returns (bytes: seq<byte>)
      requires Mirrors() && StringWhole(data, off)
      ensures bytes == StringBytes(data, off)
    {
      hide VectorDownward.Valid;
      hide VectorDownward.Data;
      hide VectorDownward.Scratch;
      hide FromBytes;
      hide ScratchBytes;
      SizeIs();
      var length := buf.ReadAt(off, 4);
      bytes := buf.ReadAt(off - 4, FromBytes(length));
    }

    /** An offset of the pool, or of the string itself, where these bytes are. */
    method FindString(s: seq<byte>) returns (found: Option<nat>)
      requires Mirrors()
      requires forall i :: 0 <= i < |stringPool| ==> StringWhole(data, stringPool[i])
      ensures match found
        case Some(off) => off in stringPool && StringAt(data, off, s)
        case None => !InPool(data, stringPool, s)
    {
      hide Mirrors;
      hide StringWhole;
      hide StringBytes;
      for i := 0 to |stringPool|
        invariant forall j :: 0 <= j < i ==> !StringAt(data, stringPool[j], s)
      {
        var bytes := StringAtOffset(stringPool[i]);
        if bytes == s {
          return Some(stringPool[i]);
        }
      }
      return None;
    }

    /** Takes back what was written since the data had this size. */
    method PopTo(size: nat)
      requires Mirrors() && size <= |data|
      modifies `data, buf
      ensures Mirrors() && data == old(data)[|old(data)| - size..] && buf.memory == old(buf.memory)
    {
      hide VectorDownward.Valid;
      hide VectorDownward.Data;
      hide VectorDownward.Scratch;
      hide ScratchBytes;
      SizeIs();
      var taken := buf.size - size;
      ghost var kept := data[taken..];
      buf.Pop(taken);
      data := kept;
    }

    /** Writes a string, and takes it back if the pool has one with the same bytes. */
    method CreateSharedString(s: seq<byte>) returns (off: nat)
      requires Valid() && !nested && |data| + |s| + 16 < MAX_BUFFER_SIZE
      modifies `data, `minAlign, `stringPool, `strings, buf, buf.memory
      ensures buf.memory == old(buf.memory) || fresh(buf.memory)
      ensures Valid() && strings == old(strings) + [(off, s)] && StringAt(data, off, s) && off in stringPool
      ensures if InPool(old(data), old(stringPool), s) then data == old(data) && stringPool == old(stringPool)
              else off == |data| > |old(data)| && EndsWith(data, old(data)) && stringPool == old(stringPool) + [off]
    {
      hide Mirrors;
      hide Built;
      hide Tracked;
      hide ObjectsAt;
      hide StringAt;
      hide StringBytes;
      ghost var before, known := data, strings;
      SizeIs();
      var size := buf.size;
      off := CreateString(s);
      PoolMoves(stringPool, known, vectors, before, data, s);
      var found := FindString(s);
      if found.Some? {
        off := found.value;
        PopTo(size);
        strings := strings[..|strings| - 1];
        assert strings == known;
        Remember(off, s);
      } else {
        PoolGrows(data, stringPool, strings, vectors, off, s);
        stringPool := stringPool + [off];
      }
    }

    // ----- vectors -----

    /** Begins a vector: pads so that its elements and its length will be aligned. */
    method StartVector(len: nat, elemSize: nat, alignment: nat)
      requires Valid() && !nested && IsByteWidth(elemSize) && IsByteWidth(alignment)
      requires |data| + Place(elemSize, len) + 16 < MAX_BUFFER_SIZE
      modifies `data, `minAlign, `nested, `tableStart, buf, buf.memory
      ensures buf.memory == old(buf.memory) || fresh(buf.memory)
      ensures Valid() && nested && fieldLocs == [] && fields == [] && maxVOffset == 0
      ensures EndsWith(data, old(data)) && |old(data)| <= |data| < |old(data)| + 16
      ensures len > 0 ==> Aligned(|data| + Place(elemSize, len), 4) && Aligned(|data| + Place(elemSize, len), alignment)
      ensures minAlign >= old(minAlign) && (len > 0 ==> minAlign >= alignment) && (len == 0 ==> data == old(data))
    {
      hide Valid;
      NoElements(len, elemSize);
      Enter();
      AlignVector(Place(elemSize, len), alignment);
    }

    /** Pads so that after `size` more bytes a length and the elements are aligned. */
    method AlignVector(size: nat, alignment: nat)
      requires Valid() && IsByteWidth(alignment) && |data| + 16 < MAX_BUFFER_SIZE
      modifies `data, `minAlign, buf, buf.memory
      ensures buf.memory == old(buf.memory) || fresh(buf.memory)
      ensures Valid() && EndsWith(data, old(data)) && |data| < |old(data)| + 16
      ensures size > 0 ==> Aligned(|data| + size, 4) && Aligned(|data| + size, alignment)
      ensures minAlign >= old(minAlign) && (size > 0 ==> minAlign >= alignment) && (size == 0 ==> data == old(data))
    {
      hide Valid;
      hide PaddingBytes;
      hide Aligned;
      hide EndsWith;
      hide Zeros;
      ghost var before := data;
      PreAlign(size, 4);
      ghost var once := data;
      PreAlign(size, alignment);
      StartIsAligned(before, once, data, size, alignment);
    }

    /** Nothing else can be begun until the vector is ended. */
    method Enter()
      requires Valid() && !nested
      modifies `nested, `tableStart
      ensures Valid() && nested && fieldLocs == [] && fields == [] && maxVOffset == 0
    {
      hide Mirrors;
      hide Built;
      hide ObjectsAt;
      hide Tracked;
      NothingAdded(data);
      hide Adding;
      nested := true;
      tableStart := |data|;
    }

    method Leave()
      requires Valid() && nested && fieldLocs == [] && fields == [] && maxVOffset == 0
      modifies `nested
      ensures Valid() && !nested
    {
      hide Mirrors;
      hide Built;
      hide ObjectsAt;
      hide Tracked;
      nested := false;
    }

    /** Ends a vector with its number of elements. */
    method EndVector(len: nat) returns (off: nat)
      requires Valid() && nested && fieldLocs == [] && fields == [] && maxVOffset == 0 && |data| + 8 < MAX_BUFFER_SIZE
      modifies `data, `minAlign, `nested, buf, buf.memory
      ensures buf.memory == old(buf.memory) || fresh(buf.memory)
      ensures Valid() && !nested && off == |data| && Aligned(off, 4) && minAlign == Max(old(minAlign), 4)
      ensures data == ToBytes(len, 4) + Zeros(PaddingBytes(|old(data)|, 4)) + old(data)
    {
      hide Mirrors;
      hide Sound;
      hide ToBytes;
      hide PaddingBytes;
      hide Aligned;
      Leave();
      off := PushElement(len, 4);
    }

    ghost method RememberVector(off: nat, v: Listed)
      requires Valid() && VectorAt(data, off, v) && Covered(v, minAlign)
      modifies `vectors
      ensures Valid() && vectors == old(vectors) + [(off, v)]
    {
      hide Mirrors;
      hide Built;
      hide VectorAt;
      vectors := vectors + [(off, v)];
    }

    /** Writes a vector of numbers. */
    method CreateVector(values: seq<nat>, w: nat) returns (off: nat)
      requires Valid() && !nested && IsByteWidth(w) && forall i :: 0 <= i < |values| ==> values[i] < Limit(w)
      requires |data| + Place(w, |values|) + 32 < MAX_BUFFER_SIZE
      modifies `data, `minAlign, `nested, `tableStart, `vectors, buf, buf.memory
      ensures buf.memory == old(buf.memory) || fresh(buf.memory)
      ensures Valid() && !nested && off == |data| > |old(data)| && EndsWith(data, old(data))
      ensures vectors == old(vectors) + [(off, Numbers(w, values))] && VectorAt(data, off, Numbers(w, values))
    {
      hide Mirrors;
      hide Sound;
      hide ToBytes;
      hide PaddingBytes;
      hide Aligned;
      hide NumberBytes;
      hide VectorAt;
      NoElements(|values|, w);
      hide Place;
      hide EndsWith;
      hide Limit;
      ghost var before := data;
      StartVector(|values|, w, w);
      ghost var rest := data;
      if |values| > 0 {
        PushBytes(NumberBytes(values, w));
      }
      ghost var body := data;
      NoNumbers(w, rest);
      off := EndVector(|values|);
      NumbersInFront(rest, values, w);
      FrontGrows(NumberBytes(values, w), rest, before);
      EndedVector(before, body, |values|);
      RememberVector(off, Numbers(w, values));
    }

    /** Begins a vector of offsets and pushes them. */
    method PushTargets(targets: seq<nat>)
      requires Valid() && !nested && forall i :: 0 <= i < |targets| ==> 0 < targets[i] <= |data|
      requires |data| + |targets| * 4 + 64 < MAX_BUFFER_SIZE
      modifies `data, `minAlign, `nested, `tableStart, buf, buf.memory
      ensures buf.memory == old(buf.memory) || fresh(buf.memory)
      ensures Valid() && nested && fieldLocs == [] && fields == [] && maxVOffset == 0
      ensures EndsWith(data, old(data)) && |data| < |old(data)| + 16 + 4 * |targets|
      ensures OffsetsInFront(data, targets) && (targets != [] ==> |data| % 4 == 0 && minAlign >= 4)
    {
      hide Valid;
      hide EndsWith;
      hide OffsetsInFront;
      ghost var before := data;
      StartVector(|targets|, 4, 4);
      ghost var rest := data;
      StartedOffsets(rest, |targets|);
      PushOffsets(targets);
      EndsTransitively(data, rest, before);
    }

    /** Writes a vector of offsets to objects written before. */
    method CreateVectorOfOffsets(targets: seq<nat>) returns (off: nat)
      requires Valid() && !nested && forall i :: 0 <= i < |targets| ==> 0 < targets[i] <= |data|
      requires |data| + |targets| * 4 + 64 < MAX_BUFFER_SIZE
      modifies `data, `minAlign, `nested, `tableStart, `vectors, buf, buf.memory
      ensures buf.memory == old(buf.memory) || fresh(buf.memory)
      ensures Valid() && !nested && off == |data| > |old(data)| && EndsWith(data, old(data))
      ensures vectors == old(vectors) + [(off, Offsets(targets))] && VectorAt(data, off, Offsets(targets))
    {
      hide Valid;
      hide ToBytes;
      hide PaddingBytes;
      hide Aligned;
      hide VectorAt;
      hide EndsWith;
      hide OffsetsInFront;
      ghost var before := data;
      PushTargets(targets);
      ghost var body := data;
      off := EndVector(|targets|);
      OffsetsEnd(body, targets);
      EndedVector(before, body, |targets|);
      RememberVector(off, Offsets(targets));
    }

    /** Pushes the offsets, the last one first. */
    method PushOffsets(targets: seq<nat>)
      requires Valid() && forall i :: 0 <= i < |targets| ==> 0 < targets[i] <= |data|
      requires |data| + |targets| * 4 + 16 < MAX_BUFFER_SIZE && (targets != [] ==> |data| % 4 == 0)
      modifies `data, `minAlign, buf, buf.memory
      ensures buf.memory == old(buf.memory) || fresh(buf.memory)
      ensures Valid() && OffsetsInFront(data, targets) && EndsWith(data, old(data))
      ensures |data| == |old(data)| + 4 * |targets| && minAlign >= old(minAlign)
    {
      hide Mirrors;
      hide Sound;
      hide ToBytes;
      hide OffsetsInFront;
      var i := |targets|;
      NoOffsets(data);
      assert targets[i..] == [];
      while i > 0
        invariant 0 <= i <= |targets| && Valid() && OffsetsInFront(data, targets[i..]) && EndsWith(data, old(data))
        invariant |data| == |old(data)| + 4 * (|targets| - i)
        invariant minAlign >= old(minAlign)
        invariant buf.memory == old(buf.memory) || fresh(buf.memory)
      {
        i := i - 1;
        assert targets[i..] == [targets[i]] + targets[i + 1..];
        assert targets[i..][1..] == targets[i + 1..];
        OffsetInFront(data, targets[i..]);
        FrontGrows(ToBytes(|data| - targets[i] + 4, 4), data, old(data));
        PushRoot(targets[i]);
      }
      assert targets[0..] == targets;
    }

    // ----- the finished buffer -----

    /** Writes four bytes where they need no padding. */
    method PushAligned(x: nat)
      requires Valid() && |data| % 4 == 0 && |data| + 4 <= MAX_BUFFER_SIZE
      modifies `data, `minAlign, buf, buf.memory
      ensures buf.memory == old(buf.memory) || fresh(buf.memory)
      ensures Valid() && data == ToBytes(x, 4) + old(data) && minAlign == Max(old(minAlign), 4)
    {
      hide Mirrors;
      hide Built;
      hide ObjectsAt;
      hide Tracked;
      hide ToBytes;
      AlignedNeedsNoPadding(|data|);
      NothingBetween(ToBytes(x, 4), data);
      var _ := PushElement(x, 4);
    }

    method PushRoot(root: nat)
      requires Valid() && 0 < root <= |data| <= MAX_BUFFER_SIZE - 16 && |data| % 4 == 0
      modifies `data, `minAlign, buf, buf.memory
      ensures buf.memory == old(buf.memory) || fresh(buf.memory)
      ensures Valid() && data == ToBytes(|old(data)| - root + 4, 4) + old(data) && minAlign == Max(old(minAlign), 4)
    {
      hide Mirrors;
      hide Built;
      hide ObjectsAt;
      hide Tracked;
      hide ToBytes;
      AlignedNeedsNoPadding(|data|);
      NothingInFront(data);
      var distance := ReferTo(root);
      PushAligned(distance);
    }

    /** Pads so that the whole buffer, with its header, will be a multiple of the largest alignment. */
    method PadForHeader(header: nat, sizePrefix: bool)
      requires Valid() && minAlign >= 4 && header > 0 && header % 4 == 0 && |data| < MAX_BUFFER_SIZE
      modifies `data, `minAlign, buf, buf.memory
      ensures buf.memory == old(buf.memory) || fresh(buf.memory)
      ensures Valid() && minAlign == old(minAlign) && Aligned(|data| + header, minAlign) && |data| % 4 == 0
      ensures EndsWith(data, old(data)) && |old(data)| <= |data| < |old(data)| + 8
    {
      hide Mirrors;
      hide Built;
      hide ObjectsAt;
      hide Adding;
      hide PaddingBytes;
      hide Aligned;
      if sizePrefix {
        TrackMinAlign(4);
      }
      PreAlign(header, minAlign);
      FullAlign(|data|, header, minAlign);
    }

    /** Writes the identifier and the offset of the root in front of it. */
    method PushRootAndIdentifier(root: nat, identifier: Option<seq<byte>>)
      requires Valid() && (identifier.Some? ==> |identifier.value| == 4)
      requires 0 < root <= |data| <= MAX_BUFFER_SIZE - 20 && |data| % 4 == 0
      modifies `data, `minAlign, buf, buf.memory
      ensures buf.memory == old(buf.memory) || fresh(buf.memory)
      ensures Valid() && Headed(data, root, identifier, false) && EndsWith(data, old(data))
        && minAlign == Max(old(minAlign), 4)
      ensures |data| == |old(data)| + 4 + if identifier.Some? then 4 else 0
    {
      hide Valid;
      hide Headed;
      hide EndsWith;
      hide ToBytes;
      ghost var padded := data;
      if identifier.Some? {
        PushBytes(identifier.value);
      } else {
        assert data == [] + data;
      }
      ghost var rest := data;
      assert rest == IdentifierBytes(identifier) + padded;
      PushRoot(root);
      FrontGrows(ToBytes(|rest| - root + 4, 4) + IdentifierBytes(identifier), padded, padded);
      ThreeInARow(ToBytes(|rest| - root + 4, 4), IdentifierBytes(identifier), padded);
      HeadedByRoot(rest, padded, root, identifier);
    }

    /** Writes the size in front if asked for. */
    method PushSize(root: nat, identifier: Option<seq<byte>>, sizePrefix: bool)
      requires Valid() && |data| % 4 == 0 && |data| <= MAX_BUFFER_SIZE - 16 && minAlign >= 4
      requires Headed(data, root, identifier, false)
      modifies `data, `minAlign, buf, buf.memory
      ensures buf.memory == old(buf.memory) || fresh(buf.memory)
      ensures Valid() && Headed(data, root, identifier, sizePrefix) && EndsWith(data, old(data))
        && minAlign == old(minAlign)
      ensures |data| == |old(data)| + if sizePrefix then 4 else 0
    {
      hide Valid;
      hide Headed;
      hide ToBytes;
      if sizePrefix {
        ghost var body := data;
        SizeIsKnown();
        PushAligned(buf.size);
        FrontGrows(ToBytes(|body|, 4), body, body);
        PrefixedBySize(body, root, identifier);
      }
    }

    /** Forgets the vtables. */
    method ClearScratch()
      requires Valid() && !nested
      modifies `vtables, buf, buf.memory
      ensures buf.memory == old(buf.memory) || fresh(buf.memory)
      ensures Valid() && vtables == []
    {
      hide Built;
      hide ToBytes;
      NoVTables();
      buf.ClearScratch();
      vtables := [];
      ForgetVTables(data, old(vtables), tables);
    }

    method MarkFinished()
      requires Valid()
      modifies `finished
      ensures Valid() && finished
    {
      hide Mirrors;
      hide Sound;
      finished := true;
    }

    /** The bytes of the finished buffer. */
    method GetBuffer() returns (bytes: seq<byte>)
      requires Valid() && finished
      ensures bytes == data
    {
      hide Sound;
      hide ScratchBytes;
      hide VectorDownward.Data;
      hide VectorDownward.Scratch;
      WholeSlice(buf.Data(), buf.size);
      bytes := buf.ReadAt(buf.size, buf.size);
    }

    lemma RootIsWritten(root: nat)
      requires Valid() && IsTable(tables, root)
      ensures 4 <= root <= |data| && |data| >= 8 && minAlign >= 4 && IsByteWidth(minAlign)
    {
      var i :| 0 <= i < |tables| && tables[i].0 == root;
      assert TableAt(data, tables[i].0, tables[i].1);
    }

    /** Ends the buffer: it is padded to its largest alignment, and begins with the size if asked for, the offset of
        the root table, and the file identifier if there is one. */
    method Finish(root: nat, identifier: Option<seq<byte>>, sizePrefix: bool)
      requires Valid() && !nested && !finished && IsTable(tables, root) && |data| <= MAX_BUFFER_SIZE - 32
      requires identifier.Some? ==> |identifier.value| == 4
      modifies `data, `minAlign, `vtables, `finished, buf, buf.memory
      ensures buf.memory == old(buf.memory) || fresh(buf.memory)
      ensures Valid() && finished && Headed(data, root, identifier, sizePrefix)
      ensures Aligned(|data|, minAlign) && minAlign == old(minAlign) >= 4
      ensures |old(data)| + 20 >= |data| >= |old(data)| + 4 >= 12 && EndsWith(data, old(data))
    {
      hide Valid;
      hide Headed;
      hide Aligned;
      hide EndsWith;
      ghost var before := data;
      RootIsWritten(root);
      ClearScratch();
      PadForHeader((if sizePrefix then 4 else 0) + 4 + (if identifier.Some? then 4 else 0), sizePrefix);
      ghost var padded := data;
      PushRootAndIdentifier(root, identifier);
      ghost var body := data;
      PushSize(root, identifier, sizePrefix);
      EndsTransitively(data, body, padded);
      EndsTransitively(data, padded, before);
      MarkFinished();
    }
  }
}
