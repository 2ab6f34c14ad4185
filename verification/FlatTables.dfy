/** Tables as a FlatBuffer builder writes them: `flatbuffer_builder.h`.

    The buffer grows downwards: new bytes come in front, and an offset counts from the end, so it names the same
    byte for ever. */
module FlatTables {
  import opened Arithmetic
  import opened Bytes
  import opened LittleEndian
  import opened Tables
  import opened VectorDownwards

  /** A field of a table as it was added: a scalar, or an offset to an earlier object. */
  datatype Added = AddedScalar(field: nat, width: nat, value: nat) | AddedOffset(field: nat, target: nat)

  /** Where a field was written, and its position in the vtable. */
  datatype FieldLoc = FieldLoc(off: nat, id: nat)

  /** The fields have distinct positions that a vtable can hold. */
  ghost predicate ProperFields(fields: seq<Added>) {
    && (forall i :: 0 <= i < |fields| ==> ProperField(fields[i].field))
    && (forall i, j :: 0 <= i < j < |fields| ==> fields[i].field != fields[j].field)
  }

  predicate ProperField(field: nat) { field % 2 == 0 && 4 <= field < 0xFFFE }

  ghost predicate HasField(fields: seq<Added>, field: nat) {
    exists i :: 0 <= i < |fields| && fields[i].field == field
  }

  /** The number of bytes of the field in its table. */
  function Width(a: Added): nat { if a.AddedScalar? then a.width else 4 }

  predicate Aligned(size: int, w: nat) { w > 0 && size % w == 0 }

  /** The bytes at offset `off` are those of the field; the offset is a multiple of their number. */
  predicate ElementAt(data: seq<byte>, off: nat, a: Added) {
    && IsByteWidth(Width(a)) && Width(a) <= off <= |data| && Aligned(off, Width(a))
    && match a
       case AddedScalar(_, w, value) => ReadUInt(data, |data| - off, w) == value
       case AddedOffset(_, target) => 0 < target <= off - 4 && ReadUInt(data, |data| - off, 4) == off - target
  }

  /** The field reads back from the table at position `pos`, and is aligned as seen from the end of the buffer. */
  predicate ReadsBack(data: seq<byte>, pos: int, a: Added) {
    var offset := GetOptionalFieldOffset(data, pos, a.field);
    && offset != 0 && IsByteWidth(Width(a)) && InBuffer(data, pos + offset, Width(a))
    && Aligned(|data| - (pos + offset), Width(a))
    && match a
       case AddedScalar(_, w, value) => ReadUInt(data, pos + offset, w) == value
       case AddedOffset(_, target) =>
           |data| > Target(data, pos + offset) == |data| - target && |data| - target >= pos + offset + 4
  }

  /** The table has a whole vtable, on an even position and shorter than the buffer. */
  predicate InBounds(data: seq<byte>, o: nat) {
    && 4 <= o <= |data| && HasVTable(data, |data| - o) && Aligned(|data| - VTable(data, |data| - o), 2)
    && 4 <= ReadScalar(data, VTable(data, |data| - o), 2) <= |data| - 4
  }

  /** The table at offset `o` has exactly these fields. */
  ghost predicate TableAt(data: seq<byte>, o: nat, fields: seq<Added>) {
    && InBounds(data, o) && Aligned(o, 4)
    && (forall i :: 0 <= i < |fields| ==> ReadsBack(data, |data| - o, fields[i]))
    && (forall f: nat :: ProperField(f) && !HasField(fields, f) ==> GetOptionalFieldOffset(data, |data| - o, f) == 0)
  }

  // ----- bytes in front do not matter -----

  lemma ReadMoves(more: seq<byte>, data: seq<byte>, pos: int, w: nat)
    requires IsByteWidth(w) && InBuffer(data, pos, w)
    ensures InBuffer(more + data, |more| + pos, w) && ReadUInt(more + data, |more| + pos, w) == ReadUInt(data, pos, w)
  {
    assert (more + data)[|more| + pos..|more| + pos + w] == data[pos..pos + w];
  }

  lemma ScalarMoves(more: seq<byte>, data: seq<byte>, pos: int, w: nat)
    requires IsByteWidth(w) && InBuffer(data, pos, w)
    ensures ReadScalar(more + data, |more| + pos, w) == ReadScalar(data, pos, w)
  {
    ReadMoves(more, data, pos, w);
  }

  lemma VTableMoves(more: seq<byte>, data: seq<byte>, pos: int)
    requires HasVTable(data, pos)
    ensures HasVTable(more + data, |more| + pos) && VTable(more + data, |more| + pos) == |more| + VTable(data, pos)
    ensures ReadScalar(more + data, |more| + VTable(data, pos), 2) == ReadScalar(data, VTable(data, pos), 2)
  {
    ReadMoves(more, data, pos, 4);
    ScalarMoves(more, data, VTable(data, pos), 2);
  }

  lemma FieldOffsetMoves(more: seq<byte>, data: seq<byte>, pos: int, field: nat)
    requires HasVTable(data, pos) && ProperField(field)
    ensures GetOptionalFieldOffset(more + data, |more| + pos, field) == GetOptionalFieldOffset(data, pos, field)
  {
    VTableMoves(more, data, pos);
    var vtable := VTable(data, pos);
    if field < ReadScalar(data, vtable, 2) {
      FieldReadsAreInBounds(data, pos, field);
      ScalarMoves(more, data, vtable + field, 2);
    }
  }

  lemma ReadsBackMoves(more: seq<byte>, data: seq<byte>, pos: int, a: Added)
    requires HasVTable(data, pos) && ProperField(a.field) && ReadsBack(data, pos, a)
    ensures ReadsBack(more + data, |more| + pos, a)
  {
    hide Aligned;
    hide GetOptionalFieldOffset;
    FieldOffsetMoves(more, data, pos, a.field);
    var offset := GetOptionalFieldOffset(data, pos, a.field);
    match a
    case AddedScalar(_, w, value) => ReadMoves(more, data, pos + offset, w);
    case AddedOffset(_, target) => ScalarMoves(more, data, pos + offset, 4);
  }

  /** Whatever is written later, a table stays as it is. */
  lemma TableMoves(more: seq<byte>, data: seq<byte>, o: nat, fields: seq<Added>)
    requires TableAt(data, o, fields) && ProperFields(fields)
    ensures TableAt(more + data, o, fields)
  {
    hide ReadsBack;
    hide GetOptionalFieldOffset;
    hide HasVTable;
    hide HasField;
    var pos := |data| - o;
    assert |more + data| - o == |more| + pos;
    VTableMoves(more, data, pos);
    forall i | 0 <= i < |fields|
      ensures ReadsBack(more + data, |more| + pos, fields[i])
    {
      ReadsBackMoves(more, data, pos, fields[i]);
    }
    forall f: nat | ProperField(f) && !HasField(fields, f)
      ensures GetOptionalFieldOffset(more + data, |more| + pos, f) == 0
    {
      FieldOffsetMoves(more, data, pos, f);
    }
  }

  lemma ElementMoves(more: seq<byte>, data: seq<byte>, off: nat, a: Added)
    requires ElementAt(data, off, a)
    ensures ElementAt(more + data, off, a)
  {
    ReadMoves(more, data, |data| - off, Width(a));
  }

  // ----- vtables -----

  /** Two bytes written over those at `at`. */
  function Put2(s: seq<byte>, at: nat, x: nat): (r: seq<byte>)
    requires at + 2 <= |s|
    ensures |r| == |s|
  {
    s[..at] + ToBytes(x, 2) + s[at + 2..]
  }

  lemma Put2Reads(s: seq<byte>, at: nat, x: nat, pos: nat)
    requires at + 2 <= |s| && pos + 2 <= |s| && x < 0x1_0000 && (pos == at || pos + 2 <= at || at + 2 <= pos)
    ensures ReadUInt(Put2(s, at, x), pos, 2) == if pos == at then x else ReadUInt(s, pos, 2)
  {
    var r := Put2(s, at, x);
    if pos == at {
      assert r[pos..pos + 2] == ToBytes(x, 2);
      UnsignedRoundTrip(x, 2);
      SmallOverLarge(x, Limit(2));
    } else {
      assert r[pos..pos + 2] == s[pos..pos + 2];
    }
  }

  lemma ZerosRead(n: nat, pos: nat)
    requires pos + 2 <= n
    ensures ReadUInt(Zeros(n), pos, 2) == 0
  {
    assert Zeros(n)[pos..pos + 2] == [0, 0];
    assert FromBytes([0, 0]) == 0 + 256 * FromBytes([0]);
  }

  /** Every field has its own place in a vtable of `n` bytes, and its distance from the table fits in two bytes. */
  ghost predicate ProperLocs(n: nat, locs: seq<FieldLoc>, tableLoc: nat) {
    && (forall i :: 0 <= i < |locs| ==>
          ProperField(locs[i].id) && locs[i].id + 2 <= n && locs[i].off < tableLoc < locs[i].off + 0x1_0000)
    && (forall i, j :: 0 <= i < j < |locs| ==> locs[i].id != locs[j].id)
  }

  /** The vtable: its size, the size of the table, and where the fields are. */
  function VTableBytes(n: nat, objectSize: nat, locs: seq<FieldLoc>, tableLoc: nat): (r: seq<byte>)
    requires n >= 4 && forall i :: 0 <= i < |locs| ==> locs[i].id + 2 <= n && locs[i].off < tableLoc
    ensures |r| == n
  {
    if locs == [] then Put2(Put2(Zeros(n), 2, objectSize), 0, n)
    else
      var last := locs[|locs| - 1];
      Put2(VTableBytes(n, objectSize, locs[..|locs| - 1], tableLoc), last.id, tableLoc - last.off)
  }

  lemma {:induction false} VTableSize(n: nat, objectSize: nat, locs: seq<FieldLoc>, tableLoc: nat)
    requires 4 <= n < 0x1_0000 && objectSize < 0x1_0000 && ProperLocs(n, locs, tableLoc)
    ensures ReadUInt(VTableBytes(n, objectSize, locs, tableLoc), 0, 2) == n
  {
    hide Put2;
    hide ToBytes;
    hide FromBytes;
    if locs == [] {
      Put2Reads(Put2(Zeros(n), 2, objectSize), 0, n, 0);
    } else {
      var last := locs[|locs| - 1];
      VTableSize(n, objectSize, locs[..|locs| - 1], tableLoc);
      Put2Reads(VTableBytes(n, objectSize, locs[..|locs| - 1], tableLoc), last.id, tableLoc - last.off, 0);
    }
  }

  /** The distance of a field from the table is at its place in the vtable. */
  lemma {:induction false} VTableHas(n: nat, objectSize: nat, locs: seq<FieldLoc>, tableLoc: nat, i: nat)
    requires 4 <= n < 0x1_0000 && objectSize < 0x1_0000 && ProperLocs(n, locs, tableLoc) && i < |locs|
    ensures ReadUInt(VTableBytes(n, objectSize, locs, tableLoc), locs[i].id, 2) == tableLoc - locs[i].off
  {
    hide Put2;
    hide ToBytes;
    hide FromBytes;
    var before, last := locs[..|locs| - 1], locs[|locs| - 1];
    if i < |locs| - 1 {
      VTableHas(n, objectSize, before, tableLoc, i);
      assert before[i] == locs[i];
    }
    assert locs[i].id + 2 <= last.id || last.id + 2 <= locs[i].id || i == |locs| - 1;
    Put2Reads(VTableBytes(n, objectSize, before, tableLoc), last.id, tableLoc - last.off, locs[i].id);
  }

  /** Every other place in the vtable holds zero. */
  lemma {:induction false} VTableLacks(n: nat, objectSize: nat, locs: seq<FieldLoc>, tableLoc: nat, field: nat)
    requires 4 <= n < 0x1_0000 && objectSize < 0x1_0000 && ProperLocs(n, locs, tableLoc) && ProperField(field)
      && field + 2 <= n
    requires forall i :: 0 <= i < |locs| ==> locs[i].id != field
    ensures ReadUInt(VTableBytes(n, objectSize, locs, tableLoc), field, 2) == 0
  {
    hide Put2;
    hide ToBytes;
    hide FromBytes;
    if locs == [] {
      ZerosRead(n, field);
      Put2Reads(Zeros(n), 2, objectSize, field);
      Put2Reads(Put2(Zeros(n), 2, objectSize), 0, n, field);
    } else {
      var before, last := locs[..|locs| - 1], locs[|locs| - 1];
      VTableLacks(n, objectSize, before, tableLoc, field);
      Put2Reads(VTableBytes(n, objectSize, before, tableLoc), last.id, tableLoc - last.off, field);
    }
  }

  /** At offset `vt` lies a whole vtable, with a table somewhere behind it. */
  predicate VTableAt(data: seq<byte>, vt: nat) {
    && 2 <= vt <= |data| && Aligned(vt, 2)
    && ReadScalar(data, |data| - vt, 2) % 2 == 0 && 4 <= ReadScalar(data, |data| - vt, 2) <= vt - 4
  }

  /** The bytes of the vtable at offset `vt`. */
  function VTableSlice(data: seq<byte>, vt: nat): seq<byte>
    requires VTableAt(data, vt)
  {
    data[|data| - vt..|data| - vt + ReadScalar(data, |data| - vt, 2)]
  }

  lemma VTableAtMoves(more: seq<byte>, data: seq<byte>, vt: nat)
    requires VTableAt(data, vt)
    ensures VTableAt(more + data, vt) && VTableSlice(more + data, vt) == VTableSlice(data, vt)
  {
    ScalarMoves(more, data, |data| - vt, 2);
    assert |more + data| - vt == |more| + (|data| - vt);
    var at, n := |data| - vt, ReadScalar(data, |data| - vt, 2);
    assert (more + data)[|more| + at..|more| + at + n] == data[at..at + n];
  }

  lemma SliceRead(data: seq<byte>, at: nat, s: seq<byte>, pos: nat)
    requires at + |s| <= |data| && data[at..at + |s|] == s && pos + 2 <= |s|
    ensures InBuffer(data, at + pos, 2) && ReadUInt(data, at + pos, 2) == ReadUInt(s, pos, 2)
  {
    assert data[at + pos] == data[at..at + |s|][pos] && data[at + pos + 1] == data[at..at + |s|][pos + 1];
    assert data[at + pos..at + pos + 2] == s[pos..pos + 2];
  }

  // ----- a finished table -----

  /** What is known when a table has been written: its offset to a vtable with these bytes, and its fields. */
  ghost predicate Written(data: seq<byte>, loc: nat, vt: nat, n: nat, objectSize: nat, locs: seq<FieldLoc>,
                          fields: seq<Added>) {
    && 4 <= loc <= |data| && Aligned(loc, 4) && ReadInt(data, |data| - loc, 4) == vt - loc
    && 4 <= n < 0x1_0000 && n % 2 == 0 && objectSize < 0x1_0000 && ProperLocs(n, locs, loc)
    && VTableAt(data, vt) && VTableSlice(data, vt) == VTableBytes(n, objectSize, locs, loc)
    && |locs| == |fields|
    && (forall i :: 0 <= i < |locs| ==> locs[i].id == fields[i].field && ElementAt(data, locs[i].off, fields[i]))
  }

  /** Reading a vtable that is there. */
  lemma VTableIsRead(data: seq<byte>, loc: nat, vt: nat, slice: seq<byte>)
    requires 4 <= loc <= |data| && ReadInt(data, |data| - loc, 4) == vt - loc
    requires VTableAt(data, vt) && VTableSlice(data, vt) == slice && |slice| % 2 == 0
    ensures InBounds(data, loc) && VTable(data, |data| - loc) == |data| - vt
    ensures ReadScalar(data, |data| - vt, 2) == |slice|
  {
    hide ReadUInt;
  }

  lemma FieldIsRead(data: seq<byte>, loc: nat, vt: nat, slice: seq<byte>, f: nat)
    requires VTableAt(data, vt) && VTableSlice(data, vt) == slice && VTable(data, |data| - loc) == |data| - vt
    requires ReadScalar(data, |data| - vt, 2) == |slice|
    ensures f + 2 <= |slice| ==> GetOptionalFieldOffset(data, |data| - loc, f) == ReadUInt(slice, f, 2)
    ensures f >= |slice| ==> GetOptionalFieldOffset(data, |data| - loc, f) == 0
  {
    if f + 2 <= |slice| {
      SliceRead(data, |data| - vt, slice, f);
    }
    hide FromBytes;
  }

  lemma WrittenHasVTable(data: seq<byte>, loc: nat, vt: nat, n: nat, objectSize: nat, locs: seq<FieldLoc>,
                         fields: seq<Added>)
    requires Written(data, loc, vt, n, objectSize, locs, fields)
    ensures InBounds(data, loc) && Aligned(loc, 4) && VTable(data, |data| - loc) == |data| - vt
      && ReadScalar(data, |data| - vt, 2) == n
  {
    hide VTableBytes;
    hide VTableAt;
    hide InBounds;
    hide ReadInt;
    hide ReadScalar;
    hide VTable;
    VTableIsRead(data, loc, vt, VTableBytes(n, objectSize, locs, loc));
  }

  /** The entry of a field, zero behind the end of the vtable. */
  lemma WrittenEntry(data: seq<byte>, loc: nat, vt: nat, n: nat, objectSize: nat, locs: seq<FieldLoc>,
                     fields: seq<Added>, f: nat)
    requires Written(data, loc, vt, n, objectSize, locs, fields) && ProperField(f)
    ensures f + 2 <= n ==>
      GetOptionalFieldOffset(data, |data| - loc, f) == ReadUInt(VTableBytes(n, objectSize, locs, loc), f, 2)
    ensures f + 2 > n ==> GetOptionalFieldOffset(data, |data| - loc, f) == 0
  {
    hide VTableBytes;
    hide VTableAt;
    hide InBounds;
    hide ReadInt;
    hide ReadUInt;
    hide ReadScalar;
    hide VTable;
    hide GetOptionalFieldOffset;
    WrittenHasVTable(data, loc, vt, n, objectSize, locs, fields);
    FieldIsRead(data, loc, vt, VTableBytes(n, objectSize, locs, loc), f);
  }

  lemma WrittenFieldOffset(data: seq<byte>, loc: nat, vt: nat, n: nat, objectSize: nat, locs: seq<FieldLoc>,
                           fields: seq<Added>, i: nat)
    requires Written(data, loc, vt, n, objectSize, locs, fields) && i < |fields|
    ensures locs[i].off < loc && ElementAt(data, locs[i].off, fields[i])
    ensures GetOptionalFieldOffset(data, |data| - loc, fields[i].field) == loc - locs[i].off
  {
    hide GetOptionalFieldOffset;
    hide VTableBytes;
    hide ElementAt;
    hide VTableAt;
    hide InBounds;
    hide ReadUInt;
    hide ReadInt;
    VTableHas(n, objectSize, locs, loc, i);
    assert locs[i].id == fields[i].field;
    WrittenEntry(data, loc, vt, n, objectSize, locs, fields, locs[i].id);
  }

  /** A field that is read where it was written reads back. */
  lemma ElementReadsBack(data: seq<byte>, loc: nat, off: nat, a: Added)
    requires off < loc <= |data| && ElementAt(data, off, a)
    requires GetOptionalFieldOffset(data, |data| - loc, a.field) == loc - off
    ensures ReadsBack(data, |data| - loc, a)
  {
    hide GetOptionalFieldOffset;
    hide ReadUInt;
    assert |data| - loc + (loc - off) == |data| - off;
  }

  lemma WrittenFieldReadsBack(data: seq<byte>, loc: nat, vt: nat, n: nat, objectSize: nat, locs: seq<FieldLoc>,
                              fields: seq<Added>, i: nat)
    requires Written(data, loc, vt, n, objectSize, locs, fields) && i < |fields|
    ensures ReadsBack(data, |data| - loc, fields[i])
  {
    hide GetOptionalFieldOffset;
    hide ElementAt;
    hide ReadsBack;
    hide VTableAt;
    hide ReadInt;
    WrittenFieldOffset(data, loc, vt, n, objectSize, locs, fields, i);
    ElementReadsBack(data, loc, locs[i].off, fields[i]);
  }

  lemma WrittenLacksOthers(data: seq<byte>, loc: nat, vt: nat, n: nat, objectSize: nat, locs: seq<FieldLoc>,
                           fields: seq<Added>, f: nat)
    requires Written(data, loc, vt, n, objectSize, locs, fields) && ProperField(f) && !HasField(fields, f)
    ensures GetOptionalFieldOffset(data, |data| - loc, f) == 0
  {
    hide GetOptionalFieldOffset;
    hide VTableBytes;
    hide ElementAt;
    hide VTableAt;
    hide ReadUInt;
    hide ReadInt;
    WrittenEntry(data, loc, vt, n, objectSize, locs, fields, f);
    if f + 2 <= n {
      forall i | 0 <= i < |locs|
        ensures locs[i].id != f
      {
        assert locs[i].id == fields[i].field;
      }
      VTableLacks(n, objectSize, locs, loc, f);
    }
  }

  /** Such a table reads back field by field, whether its vtable is its own or an older one with the same bytes. */
  lemma WrittenReadsBack(data: seq<byte>, loc: nat, vt: nat, n: nat, objectSize: nat, locs: seq<FieldLoc>,
                         fields: seq<Added>)
    requires Written(data, loc, vt, n, objectSize, locs, fields)
    ensures TableAt(data, loc, fields)
  {
    WrittenHasVTable(data, loc, vt, n, objectSize, locs, fields);
    hide Written;
    hide ReadsBack;
    hide GetOptionalFieldOffset;
    hide HasField;
    hide InBounds;
    hide Aligned;
    hide FromBytes;
    hide VTableBytes;
    forall i | 0 <= i < |fields|
      ensures ReadsBack(data, |data| - loc, fields[i])
    {
      WrittenFieldReadsBack(data, loc, vt, n, objectSize, locs, fields, i);
    }
    forall f: nat | ProperField(f) && !HasField(fields, f)
      ensures GetOptionalFieldOffset(data, |data| - loc, f) == 0
    {
      WrittenLacksOthers(data, loc, vt, n, objectSize, locs, fields, f);
    }
  }

  // ----- writing a vtable in front of the buffer -----

  lemma Put2InFront(s: seq<byte>, data: seq<byte>, at: nat, x: nat)
    requires at + 2 <= |s|
    ensures Put2(s + data, at, x) == Put2(s, at, x) + data
  {}

  lemma VTableBegins(n: nat, objectSize: nat, loc: nat, data: seq<byte>)
    requires n >= 4
    ensures Put2(Put2(Zeros(n) + data, 2, objectSize), 0, n) == VTableBytes(n, objectSize, [], loc) + data
  {
    Put2InFront(Zeros(n), data, 2, objectSize);
    Put2InFront(Put2(Zeros(n), 2, objectSize), data, 0, n);
  }

  /** The place of the next field is still empty; filling it gives the next vtable. */
  lemma VTableStep(n: nat, objectSize: nat, locs: seq<FieldLoc>, k: nat, loc: nat, data: seq<byte>)
    requires 4 <= n < 0x1_0000 && objectSize < 0x1_0000 && ProperLocs(n, locs, loc) && k < |locs|
    ensures var now := VTableBytes(n, objectSize, locs[..k], loc) + data;
      && ReadUInt(now, locs[k].id, 2) == 0
      && Put2(now, locs[k].id, loc - locs[k].off) == VTableBytes(n, objectSize, locs[..k + 1], loc) + data
  {
    hide Put2;
    hide ReadUInt;
    var vtable := VTableBytes(n, objectSize, locs[..k], loc);
    ProperPart(n, locs, k, loc);
    VTableLacks(n, objectSize, locs[..k], loc, locs[k].id);
    SliceRead(vtable + data, 0, vtable, locs[k].id);
    Put2InFront(vtable, data, locs[k].id, loc - locs[k].off);
    assert locs[..k + 1][..k] == locs[..k];
  }

  lemma ProperPart(n: nat, locs: seq<FieldLoc>, k: nat, loc: nat)
    requires ProperLocs(n, locs, loc) && k < |locs|
    ensures ProperLocs(n, locs[..k], loc) && ProperField(locs[k].id) && locs[k].id + 2 <= n && locs[k].off < loc
    ensures forall i :: 0 <= i < k ==> locs[..k][i].id != locs[k].id
  {}

  /** The bytes in front after the vtable offset at `loc` has been filled in. */
  function Patched(data: seq<byte>, loc: nat, x: int): (r: seq<byte>)
    requires 4 <= loc <= |data|
    ensures |r| == |data|
  {
    data[..|data| - loc] + ToBytes(x, 4) + data[|data| - loc + 4..]
  }

  lemma PatchedInFront(front: seq<byte>, back: seq<byte>, x: int)
    requires |front| >= 4
    ensures var data := front + back;
      Patched(data, |back| + 4, x) == front[..|front| - 4] + ToBytes(x, 4) + back
  {}

  lemma PatchReadsBack(front: seq<byte>, back: seq<byte>, x: int)
    requires -0x8000_0000 <= x < 0x8000_0000
    ensures var data := front + ToBytes(x, 4) + back; InBuffer(data, |front|, 4) && ReadInt(data, |front|, 4) == x
  {
    var data := front + ToBytes(x, 4) + back;
    assert data[|front|..|front| + 4] == ToBytes(x, 4);
    SignedRoundTrip(x, 4);
  }

  // ----- strings -----

  /** At offset `o` lies a whole string: its length, its bytes and a NUL. */
  predicate StringWhole(data: seq<byte>, o: nat) {
    && Aligned(o, 4) && 4 <= o <= |data| && 5 + ReadScalar(data, |data| - o, 4) <= o
    && data[|data| - o + 4 + ReadScalar(data, |data| - o, 4)] == 0
  }

  function StringBytes(data: seq<byte>, o: nat): seq<byte>
    requires StringWhole(data, o)
  {
    data[|data| - o + 4..|data| - o + 4 + ReadScalar(data, |data| - o, 4)]
  }

  predicate StringAt(data: seq<byte>, o: nat, s: seq<byte>) { StringWhole(data, o) && StringBytes(data, o) == s }

  /** Whatever is written later, a string stays as it is. */
  lemma StringMoves(more: seq<byte>, data: seq<byte>, o: nat)
    requires StringWhole(data, o)
    ensures StringAt(more + data, o, StringBytes(data, o))
  {
    var pos, n := |data| - o, ReadScalar(data, |data| - o, 4);
    ReadMoves(more, data, pos, 4);
    assert |more + data| - o == |more| + pos;
    assert (more + data)[|more| + (pos + 4 + n)] == data[pos + 4 + n];
    assert (more + data)[|more| + pos + 4..|more| + pos + 4 + n] == data[pos + 4..pos + 4 + n];
  }

  const NUL: byte := 0

  /** The bytes of a string, its length in front and a NUL behind, are a string. */
  lemma StringIsWhole(s: seq<byte>, rest: seq<byte>)
    requires (|s| + 1 + |rest|) % 4 == 0 && |s| < 0x8000_0000
    ensures StringAt(ToBytes(|s|, 4) + (s + (Single(NUL) + rest)), |s| + 5 + |rest|, s)
  {
    hide ToBytes;
    hide FromBytes;
    hide ReadUInt;
    FrontReadsBack(|s|, 4, s + (Single(NUL) + rest));
    StringInFront(ToBytes(|s|, 4), s, rest);
  }

  lemma StringInFront(head: seq<byte>, s: seq<byte>, rest: seq<byte>)
    ensures var data := head + (s + (Single(NUL) + rest));
      data[|head|..|head| + |s|] == s && data[|head| + |s|] == NUL && |data| == |head| + |s| + 1 + |rest|
  {}

  /** A number written in front reads back at its offset. */
  lemma FrontReadsBack(x: nat, w: nat, rest: seq<byte>)
    requires IsByteWidth(w) && x < Limit(w)
    ensures ReadUInt(ToBytes(x, w) + rest, 0, w) == x
  {
    assert (ToBytes(x, w) + rest)[0..w] == ToBytes(x, w);
    UnsignedRoundTrip(x, w);
    SmallOverLarge(x, Limit(w));
  }

  // ----- vectors -----

  /** What is in a vector: numbers of `width` bytes, or offsets to objects written before. */
  datatype Listed = Numbers(width: nat, values: seq<nat>) | Offsets(targets: seq<nat>) {
    function Count(): nat { if Numbers? then |values| else |targets| }

    function Stride(): nat { if Numbers? then width else 4 }
  }

  /** Where element `i` lies behind the first one. */
  function Place(w: nat, i: nat): nat { w * i }

  predicate NumberAt(data: seq<byte>, at: nat, w: nat, x: nat)
    requires IsByteWidth(w)
  {
    InBuffer(data, at, w) && ReadUInt(data, at, w) == x
  }

  /** An offset that leads to the object at offset `target`, which was written before. */
  predicate OffsetAt(data: seq<byte>, at: nat, target: nat) {
    InBuffer(data, at, 4) && 0 < target <= |data| && Target(data, at) == |data| - target >= at + 4
  }

  /** Element `i` of the vector whose elements begin at `pos`. */
  predicate EntryAt(data: seq<byte>, pos: nat, v: Listed, i: nat)
    requires i < v.Count() && IsByteWidth(v.Stride())
  {
    match v
    case Numbers(w, values) => NumberAt(data, pos + Place(w, i), w, values[i])
    case Offsets(targets) => OffsetAt(data, pos + 4 * i, targets[i])
  }

  ghost predicate EntriesAt(data: seq<byte>, pos: nat, v: Listed)
    requires IsByteWidth(v.Stride())
  {
    forall i :: 0 <= i < v.Count() ==> EntryAt(data, pos, v, i)
  }

  /** At offset `o` lies the vector: the number of elements, and the elements, aligned as seen from the end. */
  ghost predicate VectorAt(data: seq<byte>, o: nat, v: Listed) {
    && Aligned(o, 4) && 4 <= o <= |data| && IsByteWidth(v.Stride()) && 4 + Place(v.Stride(), v.Count()) <= o
    && ReadScalar(data, |data| - o, 4) == v.Count() && (v.Count() > 0 ==> Aligned(o - 4, v.Stride()))
    && EntriesAt(data, |data| - o + 4, v)
  }

  lemma EntryMoves(more: seq<byte>, data: seq<byte>, pos: nat, v: Listed, i: nat)
    requires i < v.Count() && IsByteWidth(v.Stride()) && EntryAt(data, pos, v, i)
    ensures EntryAt(more + data, |more| + pos, v, i)
  {
    match v
    case Numbers(w, values) =>
      ReadMoves(more, data, pos + Place(w, i), w);
    case Offsets(targets) =>
      ScalarMoves(more, data, pos + 4 * i, 4);
  }

  lemma EntriesMove(more: seq<byte>, data: seq<byte>, pos: nat, v: Listed)
    requires IsByteWidth(v.Stride()) && EntriesAt(data, pos, v)
    ensures EntriesAt(more + data, |more| + pos, v)
  {
    hide EntryAt;
    var at := |more| + pos;
    forall i | 0 <= i < v.Count()
      ensures EntryAt(more + data, at, v, i)
    {
      EntryMoves(more, data, pos, v, i);
    }
  }

  /** Whatever is written later, a vector stays as it is. */
  lemma VectorMoves(more: seq<byte>, data: seq<byte>, o: nat, v: Listed)
    requires VectorAt(data, o, v)
    ensures VectorAt(more + data, o, v)
  {
    hide EntriesAt;
    hide Aligned;
    hide Place;
    assert |more + data| - o == |more| + (|data| - o);
    ScalarMoves(more, data, |data| - o, 4);
    EntriesMove(more, data, |data| - o + 4, v);
  }

  lemma PlaceStep(w: nat, i: nat)
    ensures Place(w, i + 1) == Place(w, i) + w && Place(w, 0) == 0
  {
    Distributes(i, 1, w);
  }

  /** The numbers in memory order. */
  function NumberBytes(values: seq<nat>, w: nat): (r: seq<byte>)
    requires IsByteWidth(w)
    ensures |r| == Place(w, |values|)
  {
    if values == [] then []
    else
      PlaceStep(w, |values| - 1);
      NumberBytes(values[..|values| - 1], w) + ToBytes(values[|values| - 1], w)
  }

  lemma NumberBytesSplit(values: seq<nat>, w: nat)
    requires IsByteWidth(w) && values != []
    ensures var before, last := values[..|values| - 1], values[|values| - 1];
      NumberBytes(values, w) == NumberBytes(before, w) + ToBytes(last, w)
  {}

  lemma {:induction false} NumberBytesAt(values: seq<nat>, w: nat, i: nat)
    requires IsByteWidth(w) && i < |values|
    ensures Place(w, i) + w <= |NumberBytes(values, w)|
    ensures NumberBytes(values, w)[Place(w, i)..Place(w, i) + w] == ToBytes(values[i], w)
  {
    var before, last := values[..|values| - 1], values[|values| - 1];
    NumberBytesSplit(values, w);
    hide ToBytes;
    hide NumberBytes;
    hide Place;
    hide IsByteWidth;
    if i == |values| - 1 {
      BackSlice(NumberBytes(before, w), ToBytes(last, w));
    } else {
      NumberBytesAt(before, w, i);
      FrontSlice(NumberBytes(before, w), ToBytes(last, w), Place(w, i), w);
    }
  }

  lemma BackSlice(front: seq<byte>, back: seq<byte>)
    ensures (front + back)[|front|..|front| + |back|] == back
  {}

  lemma FrontSlice(front: seq<byte>, back: seq<byte>, at: nat, n: nat)
    requires at + n <= |front|
    ensures (front + back)[at..at + n] == front[at..at + n]
  {}

  lemma MiddleSlice(front: seq<byte>, row: seq<byte>, rest: seq<byte>, at: nat, n: nat)
    requires at + n <= |row|
    ensures |front| + at + n <= |front + row + rest|
    ensures (front + row + rest)[|front| + at..|front| + at + n] == row[at..at + n]
  {}

  lemma SliceIsNumber(data: seq<byte>, at: nat, w: nat, x: nat)
    requires IsByteWidth(w) && at + w <= |data| && data[at..at + w] == ToBytes(x, w) && x < Limit(w)
    ensures NumberAt(data, at, w, x)
  {
    UnsignedRoundTrip(x, w);
    SmallOverLarge(x, Limit(w));
    hide ToBytes;
    hide FromBytes;
    hide Limit;
  }

  lemma NumberInside(front: seq<byte>, row: seq<byte>, rest: seq<byte>, at: nat, w: nat, x: nat)
    requires IsByteWidth(w) && at + w <= |row| && row[at..at + w] == ToBytes(x, w) && x < Limit(w)
    ensures NumberAt(front + row + rest, |front| + at, w, x)
  {
    hide ToBytes;
    hide Limit;
    hide NumberAt;
    MiddleSlice(front, row, rest, at, w);
    SliceIsNumber(front + row + rest, |front| + at, w, x);
  }

  lemma NumberInRow(front: seq<byte>, values: seq<nat>, w: nat, rest: seq<byte>, i: nat)
    requires IsByteWidth(w) && i < |values| && values[i] < Limit(w)
    ensures NumberAt(front + NumberBytes(values, w) + rest, |front| + Place(w, i), w, values[i])
  {
    hide NumberAt;
    hide NumberBytes;
    hide Place;
    hide ToBytes;
    hide Limit;
    NumberBytesAt(values, w, i);
    NumberInside(front, NumberBytes(values, w), rest, Place(w, i), w, values[i]);
  }

  /** Numbers in a row read back, wherever the row lies. */
  lemma NumbersReadBack(front: seq<byte>, values: seq<nat>, w: nat, rest: seq<byte>)
    requires IsByteWidth(w) && forall i :: 0 <= i < |values| ==> values[i] < Limit(w)
    ensures EntriesAt(front + (NumberBytes(values, w) + rest), |front|, Numbers(w, values))
  {
    hide NumberAt;
    hide NumberBytes;
    hide Place;
    hide Limit;
    var data := front + NumberBytes(values, w) + rest;
    forall i | 0 <= i < |values|
      ensures EntryAt(data, |front|, Numbers(w, values), i)
    {
      NumberInRow(front, values, w, rest, i);
    }
    assert data == front + (NumberBytes(values, w) + rest);
  }

  /** The number of elements and the row of numbers are a vector. */
  lemma NumbersAreVector(values: seq<nat>, w: nat, rest: seq<byte>)
    requires IsByteWidth(w) && forall i :: 0 <= i < |values| ==> values[i] < Limit(w)
    requires |values| < 0x8000_0000 && Aligned(|NumberBytes(values, w) + rest|, 4)
      && (values != [] ==> Aligned(|NumberBytes(values, w) + rest|, w))
    ensures var body := NumberBytes(values, w) + rest;
      VectorAt(ToBytes(|values|, 4) + body, 4 + |body|, Numbers(w, values))
  {
    hide EntriesAt;
    hide NumberBytes;
    hide Aligned;
    hide Place;
    hide ToBytes;
    hide VectorAt;
    hide Limit;
    RowSize(values, w, rest);
    NumbersReadBack(ToBytes(|values|, 4), values, w, rest);
    VectorInFront(|values|, NumberBytes(values, w) + rest, Numbers(w, values));
  }

  lemma RowSize(values: seq<nat>, w: nat, rest: seq<byte>)
    requires IsByteWidth(w)
    ensures |NumberBytes(values, w) + rest| == |rest| + Place(w, |values|)
  {}

  /** The elements with their number in front are a vector. */
  lemma VectorInFront(n: nat, body: seq<byte>, v: Listed)
    requires IsByteWidth(v.Stride()) && n == v.Count() < 0x8000_0000 && Aligned(|body|, 4)
      && Place(v.Stride(), n) <= |body|
    requires (n > 0 ==> Aligned(|body|, v.Stride())) && EntriesAt(ToBytes(n, 4) + body, 4, v)
    ensures VectorAt(ToBytes(n, 4) + body, 4 + |body|, v)
  {
    FrontReadsBack(n, 4, body);
    hide EntriesAt;
    hide ToBytes;
    hide FromBytes;
    hide Place;
  }

  /** The front of the buffer is a row of offsets to these objects. */
  ghost predicate OffsetsInFront(data: seq<byte>, targets: seq<nat>) {
    4 * |targets| <= |data| && EntriesAt(data, 0, Offsets(targets))
  }

  lemma FirstOffset(data: seq<byte>, target: nat)
    requires 0 < target <= |data| < 0x7FFF_FFF0
    ensures OffsetAt(ToBytes(|data| - target + 4, 4) + data, 0, target)
  {
    FrontReadsBack(|data| - target + 4, 4, data);
    hide ToBytes;
    hide FromBytes;
  }

  /** One more offset in front. */
  lemma OffsetInFront(data: seq<byte>, targets: seq<nat>)
    requires targets != [] && OffsetsInFront(data, targets[1..]) && 0 < targets[0] <= |data| < 0x7FFF_FFF0
    ensures OffsetsInFront(ToBytes(|data| - targets[0] + 4, 4) + data, targets)
  {
    hide ToBytes;
    hide OffsetAt;
    hide EntriesAt;
    var more := ToBytes(|data| - targets[0] + 4, 4);
    FirstOffset(data, targets[0]);
    EntriesMove(more, data, 0, Offsets(targets[1..]));
    FrontOffsets(more + data, targets);
  }

  lemma FrontOffsets(data: seq<byte>, targets: seq<nat>)
    requires targets != [] && OffsetAt(data, 0, targets[0]) && EntriesAt(data, 4, Offsets(targets[1..]))
    ensures EntriesAt(data, 0, Offsets(targets))
  {
    hide OffsetAt;
    forall i | 0 <= i < |targets|
      ensures EntryAt(data, 0, Offsets(targets), i)
    {
      if i > 0 {
        assert EntryAt(data, 4, Offsets(targets[1..]), i - 1);
        assert 4 + 4 * (i - 1) == 4 * i;
      }
    }
  }

  /** The number of elements and the row of offsets are a vector. */
  lemma OffsetsAreVector(data: seq<byte>, targets: seq<nat>)
    requires OffsetsInFront(data, targets) && |targets| < 0x8000_0000 && |data| % 4 == 0
    ensures VectorAt(ToBytes(|targets|, 4) + data, 4 + |data|, Offsets(targets))
  {
    hide ToBytes;
    hide EntriesAt;
    EntriesMove(ToBytes(|targets|, 4), data, 0, Offsets(targets));
    VectorInFront(|targets|, data, Offsets(targets));
  }
}
