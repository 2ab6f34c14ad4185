/** What the FlatBuffers builder finishes, the verifier accepts: `flatbuffer_builder.h` against `verifier.h`. */
module FlatRoundTrip {
  import opened Arithmetic
  import opened Bytes
  import opened LittleEndian
  import opened Tables
  import opened FlatTables
  import opened FlatBuilder
  import opened FlatChecks
  import opened FlatVerifier

  /** The objects of a buffer: tables, each of a type of the schema, strings and vectors. */
  datatype Objects = Objects(tables: seq<(nat, seq<Added>)>, types: seq<nat>, strings: seq<(nat, seq<byte>)>,
                             vectors: seq<(nat, Listed)>)

  ghost predicate StringIn(x: Objects, o: nat) { exists i :: 0 <= i < |x.strings| && x.strings[i].0 == o }

  ghost predicate TableIn(x: Objects, o: nat, t: nat) {
    exists i :: 0 <= i < |x.tables| && i < |x.types| && x.tables[i].0 == o && x.types[i] == t
  }

  ghost predicate NumbersIn(x: Objects, o: nat, w: nat) {
    exists i :: 0 <= i < |x.vectors| && x.vectors[i].0 == o && x.vectors[i].1.Numbers? && x.vectors[i].1.width == w
  }

  ghost predicate StringsIn(x: Objects, o: nat) {
    exists i :: 0 <= i < |x.vectors| && x.vectors[i].0 == o && AllStrings(x, x.vectors[i].1)
  }

  ghost predicate AllStrings(x: Objects, v: Listed) {
    v.Offsets? && forall k :: 0 <= k < |v.targets| ==> StringIn(x, v.targets[k])
  }

  ghost predicate TablesIn(x: Objects, o: nat, t: nat) {
    exists i :: 0 <= i < |x.vectors| && x.vectors[i].0 == o && AllTables(x, x.vectors[i].1, t)
  }

  ghost predicate AllTables(x: Objects, v: Listed, t: nat) {
    v.Offsets? && forall k :: 0 <= k < |v.targets| ==> TableIn(x, v.targets[k], t)
  }

  /** The added field is what the schema says it is. */
  ghost predicate Fits(x: Objects, a: Added, f: Field) {
    match f.kind
    case Scalar(w) => a.AddedScalar? && a.width == w
    case Str => a.AddedOffset? && StringIn(x, a.target)
    case Sub(t) => a.AddedOffset? && TableIn(x, a.target, t)
    case ScalarVector(w) => a.AddedOffset? && NumbersIn(x, a.target, w)
    case StrVector => a.AddedOffset? && StringsIn(x, a.target)
    case TableVector(t) => a.AddedOffset? && TablesIn(x, a.target, t)
  }

  ghost predicate FieldConforms(x: Objects, fields: seq<Added>, f: Field) {
    && ProperField(f.offset) && (f.required ==> HasField(fields, f.offset))
    && (forall k :: 0 <= k < |fields| && fields[k].field == f.offset ==> Fits(x, fields[k], f))
  }

  ghost predicate TableConforms(x: Objects, schema: Schema, i: nat)
    requires i < |x.tables| == |x.types|
  {
    x.types[i] < |schema| && forall k :: 0 <= k < |schema[x.types[i]]| ==>
        FieldConforms(x, x.tables[i].1, schema[x.types[i]][k])
  }

  /** Every table has the fields its type asks for, of the right kinds, and no others that the schema knows. */
  ghost predicate Conforms(x: Objects, schema: Schema) {
    WellFormed(schema) && |x.tables| == |x.types| && forall i :: 0 <= i < |x.tables| ==> TableConforms(x, schema, i)
  }

  /** The buffer holds the objects, and was padded to the alignment of all of them. */
  ghost predicate Holds(data: seq<byte>, x: Objects, minAlign: nat, opts: Options) {
    && Built(data, [], x.tables) && ObjectsAt(data, [], x.strings, x.vectors)
    && Tracked(x.tables, x.vectors, [], minAlign) && minAlign >= 4
    && Aligned(|data|, minAlign) && MIN_BUFFER_SIZE <= |data| < 0x8000_0000 && |data| < opts.maxSize
  }

  lemma HeldTable(data: seq<byte>, x: Objects, minAlign: nat, opts: Options, i: nat)
    requires Holds(data, x, minAlign, opts) && i < |x.tables|
    ensures TableAt(data, x.tables[i].0, x.tables[i].1) && StartChecked(data, opts, |data| - x.tables[i].0)
  {
    var o := x.tables[i].0;
    var pos := |data| - o;
    assert TableAt(data, x.tables[i].0, x.tables[i].1);
    MultiplesDiffer(|data|, o, minAlign, 4);
    MultiplesDiffer(|data|, |data| - VTable(data, pos), minAlign, 2);
  }

  lemma HeldField(data: seq<byte>, x: Objects, minAlign: nat, opts: Options, i: nat, k: nat)
    requires Holds(data, x, minAlign, opts) && i < |x.tables| && k < |x.tables[i].1|
    ensures var pos, a := |data| - x.tables[i].0, x.tables[i].1[k];
      ReadsBack(data, pos, a) && VerifyScalar(data, opts, pos + GetOptionalFieldOffset(data, pos, a.field), Width(a))
  {
    var pos, a := |data| - x.tables[i].0, x.tables[i].1[k];
    hide GetOptionalFieldOffset;
    assert TableAt(data, x.tables[i].0, x.tables[i].1);
    assert ReadsBack(data, pos, a);
    FieldsAreAligned(data, [], x.tables, x.vectors, [], minAlign, i, k);
  }

  /** The field is there and its offset may be followed. */
  predicate LeadsTo(data: seq<byte>, opts: Options, pos: nat, field: nat, target: int) {
    var offset := GetOptionalFieldOffset(data, pos, field);
    offset != 0 && VerifyOffset(data, opts, pos + offset) != 0 && Target(data, pos + offset) == target
  }

  lemma HeldTableIsInside(data: seq<byte>, x: Objects, minAlign: nat, opts: Options, i: nat)
    requires Holds(data, x, minAlign, opts) && i < |x.tables|
    ensures 4 <= x.tables[i].0 <= |data|
  {
    assert TableAt(data, x.tables[i].0, x.tables[i].1);
  }

  /** An offset field that was added may be followed. */
  lemma HeldOffset(data: seq<byte>, x: Objects, minAlign: nat, opts: Options, i: nat, k: nat)
    requires Holds(data, x, minAlign, opts) && i < |x.tables| && k < |x.tables[i].1| && x.tables[i].1[k].AddedOffset?
    ensures var pos, a := |data| - x.tables[i].0, x.tables[i].1[k];
      pos >= 0 && a.target > 0 && LeadsTo(data, opts, pos, a.field, |data| - a.target) && |data| - a.target > pos
  {
    HeldTableIsInside(data, x, minAlign, opts, i);
    hide Holds;
    hide GetOptionalFieldOffset;
    hide FromBytes;
    HeldField(data, x, minAlign, opts, i, k);
    HeldSize(data, x, minAlign, opts);
  }

  lemma HeldSize(data: seq<byte>, x: Objects, minAlign: nat, opts: Options)
    requires Holds(data, x, minAlign, opts)
    ensures MIN_BUFFER_SIZE <= |data| < 0x8000_0000 && |data| < opts.maxSize
  {}

  lemma HeldString(data: seq<byte>, x: Objects, minAlign: nat, opts: Options, o: nat)
    requires Holds(data, x, minAlign, opts) && StringIn(x, o)
    ensures 0 < o <= |data| && StringChecked(data, opts, |data| - o)
  {
    var i :| 0 <= i < |x.strings| && x.strings[i].0 == o;
    assert StringAt(data, x.strings[i].0, x.strings[i].1);
    MultiplesDiffer(|data|, o, minAlign, 4);
  }

  /** A vector behind at least one byte passes its check. */
  lemma HeldVector(data: seq<byte>, x: Objects, minAlign: nat, opts: Options, i: nat)
    requires Holds(data, x, minAlign, opts) && i < |x.vectors| && x.vectors[i].0 < |data|
    ensures x.vectors[i].1.Stride() > 0 && VectorAt(data, x.vectors[i].0, x.vectors[i].1)
    ensures VectorChecked(data, opts, |data| - x.vectors[i].0, x.vectors[i].1.Stride())
  {
    var o, v := x.vectors[i].0, x.vectors[i].1;
    assert VectorAt(data, x.vectors[i].0, x.vectors[i].1);
    MultiplesDiffer(|data|, o, minAlign, 4);
    hide Holds;
    HeldSize(data, x, minAlign, opts);
    VectorPasses(data, opts, o, v);
  }

  lemma VectorPasses(data: seq<byte>, opts: Options, o: nat, v: Listed)
    requires VectorAt(data, o, v) && o < |data| && Aligned(|data| - o, 4) && |data| < 0x8000_0000
      && |data| < opts.maxSize
    ensures v.Stride() > 0 && VectorChecked(data, opts, |data| - o, v.Stride())
  {
    hide EntriesAt;
    var n, w := v.Count(), v.Stride();
    assert 4 + w * n <= o == |data| - (|data| - o);
    assert |data| - o >= 4;
    LengthIsBelow(n, w, opts.maxSize);
  }

  lemma LengthIsBelow(n: nat, w: nat, m: nat)
    requires IsByteWidth(w) && w * n + 8 <= m
    ensures n < m / w
  {
    Distributes(n, 1, w);
    QuotientAndRest(m, w);
    if m / w < n + 1 {
      ProductGrows(m / w + 1, n + 1, w);
      Distributes(m / w, 1, w);
    }
  }

  lemma HeldNumbers(data: seq<byte>, x: Objects, minAlign: nat, opts: Options, o: nat, w: nat)
    requires Holds(data, x, minAlign, opts) && NumbersIn(x, o, w) && o < |data|
    ensures w > 0 && VectorChecked(data, opts, |data| - o, w)
  {
    var i :| 0 <= i < |x.vectors| && x.vectors[i].0 == o && x.vectors[i].1.Numbers? && x.vectors[i].1.width == w;
    HeldVector(data, x, minAlign, opts, i);
  }

  /** The elements of a vector of offsets lead to the objects behind it. */
  lemma HeldElement(data: seq<byte>, o: nat, v: Listed, k: nat)
    requires VectorAt(data, o, v) && v.Offsets? && k < |v.targets|
    ensures ReadScalar(data, |data| - o, 4) == |v.targets| && 0 < v.targets[k] <= |data|
    ensures Target(data, |data| - o + 4 + 4 * k) == |data| - v.targets[k] > |data| - o
  {
    hide ReadUInt;
    assert EntryAt(data, |data| - o + 4, v, k);
  }

  lemma HeldStrings(data: seq<byte>, x: Objects, minAlign: nat, opts: Options, o: nat)
    requires Holds(data, x, minAlign, opts) && StringsIn(x, o) && o < |data|
    ensures VectorChecked(data, opts, |data| - o, 4)
    ensures forall k :: 0 <= k < ReadScalar(data, |data| - o, 4) ==>
      Target(data, |data| - o + 4 + 4 * k) >= 0 && StringChecked(data, opts, Target(data, |data| - o + 4 + 4 * k))
  {
    hide Holds;
    hide StringIn;
    hide StringChecked;
    hide VectorChecked;
    hide VectorAt;
    var i :| 0 <= i < |x.vectors| && x.vectors[i].0 == o && AllStrings(x, x.vectors[i].1);
    var v := x.vectors[i].1;
    HeldVector(data, x, minAlign, opts, i);
    HeldLength(data, o, v);
    forall k | 0 <= k < |v.targets|
      ensures Target(data, |data| - o + 4 + 4 * k) >= 0
      ensures StringChecked(data, opts, Target(data, |data| - o + 4 + 4 * k))
    {
      HeldElement(data, o, v, k);
      HeldString(data, x, minAlign, opts, v.targets[k]);
    }
  }

  lemma HeldLength(data: seq<byte>, o: nat, v: Listed)
    requires VectorAt(data, o, v)
    ensures ReadScalar(data, |data| - o, 4) == v.Count()
  {}

  lemma PresentField(data: seq<byte>, pos: int, a: Added)
    requires ReadsBack(data, pos, a)
    ensures GetOptionalFieldOffset(data, pos, a.field) != 0
  {}

  ghost function TableOf(x: Objects, o: nat, t: nat): (i: nat)
    requires TableIn(x, o, t)
    ensures i < |x.tables| && i < |x.types| && x.tables[i].0 == o && x.types[i] == t
  {
    var i :| 0 <= i < |x.tables| && i < |x.types| && x.tables[i].0 == o && x.types[i] == t;
    i
  }

  /** Every table of the buffer passes all checks: its own, those of its fields, and those of what they lead to. */
  lemma {:induction false} HeldTableIsChecked(data: seq<byte>, x: Objects, minAlign: nat, opts: Options,
                                              schema: Schema, i: nat)
    requires Holds(data, x, minAlign, opts) && Conforms(x, schema) && i < |x.tables|
    ensures x.tables[i].0 <= |data| && x.types[i] < |schema|
    ensures TableChecked(data, schema, opts, |data| - x.tables[i].0, x.types[i])
    decreases x.tables[i].0
  {
    HeldTable(data, x, minAlign, opts, i);
    assert TableConforms(x, schema, i);
    var pos, t := |data| - x.tables[i].0, x.types[i];
    forall n | 0 <= n < |schema[t]|
      ensures FieldChecked(data, schema, opts, pos, schema[t][n])
    {
      var f := schema[t][n];
      assert FieldConforms(x, x.tables[i].1, f);
      if HasField(x.tables[i].1, f.offset) {
        var k :| 0 <= k < |x.tables[i].1| && x.tables[i].1[k].field == f.offset;
        HeldFieldIsChecked(data, x, minAlign, opts, schema, i, k, f);
      } else {
        assert GetOptionalFieldOffset(data, pos, f.offset) == 0;
      }
    }
  }

  lemma {:induction false} HeldFieldIsChecked(data: seq<byte>, x: Objects, minAlign: nat, opts: Options,
                                              schema: Schema, i: nat, k: nat, f: Field)
    requires Holds(data, x, minAlign, opts) && Conforms(x, schema) && i < |x.tables| && k < |x.tables[i].1|
      && x.tables[i].0 <= |data|
    requires WellFormedField(schema, f) && x.tables[i].1[k].field == f.offset && Fits(x, x.tables[i].1[k], f)
    ensures FieldChecked(data, schema, opts, |data| - x.tables[i].0, f)
    decreases x.tables[i].0, 1
  {
    var a, pos := x.tables[i].1[k], |data| - x.tables[i].0;
    hide Holds;
    hide Conforms;
    hide Fits;
    hide ReadsBack;
    hide GetOptionalFieldOffset;
    hide VerifyScalar;
    hide LeadsTo;
    hide StringIn;
    hide TableIn;
    hide StringChecked;
    hide TableChecked;
    hide FieldChecked;
    ConformsIsProper(x, schema);
    FitsSomehow(x, a, f);
    if f.kind.Scalar? {
      HeldScalarIsChecked(data, x, minAlign, opts, schema, i, k, f);
    } else {
      HeldOffset(data, x, minAlign, opts, i, k);
      HeldTargetIsChecked(data, x, minAlign, opts, schema, pos, a, f);
    }
  }

  lemma HeldScalarIsChecked(data: seq<byte>, x: Objects, minAlign: nat, opts: Options, schema: Schema, i: nat, k: nat,
                            f: Field)
    requires Holds(data, x, minAlign, opts) && WellFormed(schema) && i < |x.tables| && k < |x.tables[i].1|
      && x.tables[i].0 <= |data|
    requires WellFormedField(schema, f) && x.tables[i].1[k].field == f.offset && f.kind.Scalar?
      && Width(x.tables[i].1[k]) == f.kind.width
    ensures FieldChecked(data, schema, opts, |data| - x.tables[i].0, f)
  {
    hide Holds;
    hide ReadsBack;
    hide GetOptionalFieldOffset;
    hide VerifyScalar;
    hide FieldChecked;
    HeldField(data, x, minAlign, opts, i, k);
    PresentField(data, |data| - x.tables[i].0, x.tables[i].1[k]);
    ScalarPasses(data, schema, opts, |data| - x.tables[i].0, f);
  }

  lemma {:induction false} HeldTargetIsChecked(data: seq<byte>, x: Objects, minAlign: nat, opts: Options,
                                               schema: Schema, pos: nat, a: Added, f: Field)
    requires Holds(data, x, minAlign, opts) && Conforms(x, schema) && WellFormedField(schema, f) && !f.kind.Scalar?
      && Fits(x, a, f)
    requires LeadsTo(data, opts, pos, f.offset, |data| - a.target) && pos < |data| - a.target
    ensures FieldChecked(data, schema, opts, pos, f)
    decreases |data| - pos, 0
  {
    hide Holds;
    hide Conforms;
    hide Fits;
    hide GetOptionalFieldOffset;
    hide VerifyOffset;
    hide LeadsTo;
    hide StringIn;
    hide TableIn;
    hide StringChecked;
    hide TableChecked;
    hide FieldChecked;
    ConformsIsProper(x, schema);
    FitsSomehow(x, a, f);
    if f.kind.Str? {
      HeldString(data, x, minAlign, opts, a.target);
      StringPasses(data, schema, opts, pos, |data| - a.target, f);
    } else if f.kind.ScalarVector? {
      HeldNumbers(data, x, minAlign, opts, a.target, f.kind.elemSize);
      NumbersPass(data, schema, opts, pos, |data| - a.target, f);
    } else if f.kind.StrVector? {
      HeldStrings(data, x, minAlign, opts, a.target);
      StringsPass(data, schema, opts, pos, |data| - a.target, f);
    } else if f.kind.TableVector? {
      HeldTablesAreChecked(data, x, minAlign, opts, schema, a.target, f.kind.table);
      TablesPass(data, schema, opts, pos, |data| - a.target, f);
    } else {
      var j := TableOf(x, a.target, f.kind.table);
      HeldTableIsInside(data, x, minAlign, opts, j);
      HeldTableIsChecked(data, x, minAlign, opts, schema, j);
      SubtablePasses(data, schema, opts, pos, |data| - a.target, f);
    }
  }

  ghost predicate ElementsPass(data: seq<byte>, schema: Schema, opts: Options, at: nat, t: nat)
    requires WellFormed(schema) && t < |schema| && at <= |data|
  {
    forall k :: 0 <= k < ReadScalar(data, at, 4) ==> ElementChecked(data, schema, opts, at, t, k)
  }

  /** Every table a vector leads to passes all checks. */
  lemma {:induction false} HeldTablesAreChecked(data: seq<byte>, x: Objects, minAlign: nat, opts: Options,
                                                schema: Schema, o: nat, t: nat)
    requires Holds(data, x, minAlign, opts) && Conforms(x, schema) && TablesIn(x, o, t) && o < |data|
      && t < |schema| && WellFormed(schema)
    ensures VectorChecked(data, opts, |data| - o, 4)
    ensures ElementsPass(data, schema, opts, |data| - o, t)
    decreases o
  {
    hide Holds;
    hide Conforms;
    hide TableIn;
    hide TableChecked;
    hide VectorChecked;
    hide VectorAt;
    var i :| 0 <= i < |x.vectors| && x.vectors[i].0 == o && AllTables(x, x.vectors[i].1, t);
    var v := x.vectors[i].1;
    HeldVector(data, x, minAlign, opts, i);
    HeldLength(data, o, v);
    var at := |data| - o;
    forall k | 0 <= k < |v.targets|
      ensures ElementChecked(data, schema, opts, at, t, k)
    {
      HeldElement(data, o, v, k);
      var j := TableOf(x, v.targets[k], t);
      HeldTableIsChecked(data, x, minAlign, opts, schema, j);
    }
  }

  lemma FitsSomehow(x: Objects, a: Added, f: Field)
    requires Fits(x, a, f)
    ensures f.kind.Scalar? ==> a.AddedScalar? && a.width == f.kind.width && Width(a) == f.kind.width
    ensures f.kind.Str? ==> a.AddedOffset? && StringIn(x, a.target)
    ensures f.kind.Sub? ==> a.AddedOffset? && TableIn(x, a.target, f.kind.table)
    ensures f.kind.ScalarVector? ==> a.AddedOffset? && NumbersIn(x, a.target, f.kind.elemSize)
    ensures f.kind.StrVector? ==> a.AddedOffset? && StringsIn(x, a.target)
    ensures f.kind.TableVector? ==> a.AddedOffset? && TablesIn(x, a.target, f.kind.table)
  {}

  lemma ScalarPasses(data: seq<byte>, schema: Schema, opts: Options, pos: nat, f: Field)
    requires WellFormed(schema) && WellFormedField(schema, f) && f.kind.Scalar? && pos <= |data|
      && GetOptionalFieldOffset(data, pos, f.offset) != 0
    requires IsByteWidth(f.kind.width)
      && VerifyScalar(data, opts, pos + GetOptionalFieldOffset(data, pos, f.offset), f.kind.width)
    ensures FieldChecked(data, schema, opts, pos, f)
  {
    hide GetOptionalFieldOffset;
    hide VerifyScalar;
  }

  lemma StringPasses(data: seq<byte>, schema: Schema, opts: Options, pos: nat, target: nat, f: Field)
    requires WellFormed(schema) && WellFormedField(schema, f) && f.kind.Str? && pos <= |data|
    requires LeadsTo(data, opts, pos, f.offset, target) && StringChecked(data, opts, target)
    ensures FieldChecked(data, schema, opts, pos, f)
  {
    hide GetOptionalFieldOffset;
    hide VerifyOffset;
    hide StringChecked;
    hide Target;
  }

  lemma SubtablePasses(data: seq<byte>, schema: Schema, opts: Options, pos: nat, target: nat, f: Field)
    requires WellFormed(schema) && WellFormedField(schema, f) && f.kind.Sub? && pos <= |data| && target <= |data|
    requires LeadsTo(data, opts, pos, f.offset, target) && f.kind.table < |schema|
      && TableChecked(data, schema, opts, target, f.kind.table)
    ensures FieldChecked(data, schema, opts, pos, f)
  {
    hide GetOptionalFieldOffset;
    hide VerifyOffset;
    hide StartChecked;
    hide Target;
  }

  lemma NumbersPass(data: seq<byte>, schema: Schema, opts: Options, pos: nat, target: nat, f: Field)
    requires WellFormed(schema) && WellFormedField(schema, f) && f.kind.ScalarVector? && pos <= |data|
    requires LeadsTo(data, opts, pos, f.offset, target) && VectorChecked(data, opts, target, f.kind.elemSize)
    ensures FieldChecked(data, schema, opts, pos, f)
  {
    hide GetOptionalFieldOffset;
    hide VerifyOffset;
    hide VectorChecked;
    hide Target;
  }

  lemma StringsPass(data: seq<byte>, schema: Schema, opts: Options, pos: nat, target: nat, f: Field)
    requires WellFormed(schema) && WellFormedField(schema, f) && f.kind.StrVector? && pos <= |data|
    requires LeadsTo(data, opts, pos, f.offset, target) && VectorChecked(data, opts, target, 4)
    requires forall k :: 0 <= k < ReadScalar(data, target, 4) ==>
      Target(data, target + 4 + 4 * k) >= 0 && StringChecked(data, opts, Target(data, target + 4 + 4 * k))
    ensures FieldChecked(data, schema, opts, pos, f)
  {
    hide GetOptionalFieldOffset;
    hide VerifyOffset;
    hide VectorChecked;
    hide StringChecked;
    hide Target;
  }

  lemma TablesPass(data: seq<byte>, schema: Schema, opts: Options, pos: nat, target: nat, f: Field)
    requires WellFormed(schema) && WellFormedField(schema, f) && f.kind.TableVector? && pos <= |data|
      && target <= |data|
    requires LeadsTo(data, opts, pos, f.offset, target) && VectorChecked(data, opts, target, 4)
    requires f.kind.table < |schema| && ElementsPass(data, schema, opts, target, f.kind.table)
    ensures FieldChecked(data, schema, opts, pos, f)
  {
    hide GetOptionalFieldOffset;
    hide VerifyOffset;
    hide VectorChecked;
    hide Target;
    forall k | 0 <= k < ReadScalar(data, target, 4)
      ensures ElementChecked(data, schema, opts, target, f.kind.table, k)
    {}
    assert TargetChecked(data, schema, opts, target, f);
  }

  lemma HeaderIsChecked(data: seq<byte>, root: nat, identifier: Option<seq<byte>>, sizePrefix: bool, opts: Options)
    requires Headed(data, root, identifier, sizePrefix) && MIN_BUFFER_SIZE <= |data| < 0x8000_0000
      && 4 <= root <= |data|
    ensures var start := if sizePrefix then 4 else 0;
      && VerifyOffset(data, opts, start) != 0 && Target(data, start) == |data| - root
      && (identifier.Some? ==> data[start + 4..start + 8] == identifier.value)
      && (sizePrefix ==> VerifyScalar(data, opts, 0, 4) && ReadScalar(data, 0, 4) + 4 <= |data|)
  {
    hide FromBytes;
  }

  /** A finished buffer whose objects conform to the schema is accepted, unless it has too many tables or nests them too
      deeply. */
  lemma FinishedBufferIsAccepted(data: seq<byte>, x: Objects, minAlign: nat, opts: Options, schema: Schema, i: nat,
                                 identifier: Option<seq<byte>>, sizePrefix: bool)
    requires Holds(data, x, minAlign, opts) && Conforms(x, schema) && i < |x.tables|
      && (identifier.Some? ==> |identifier.value| == 4)
    requires Headed(data, x.tables[i].0, identifier, sizePrefix)
    ensures x.tables[i].0 <= |data| && x.types[i] < |schema|
    ensures var start, pos := if sizePrefix then 4 else 0, |data| - x.tables[i].0;
      BufferChecked(data, schema, opts, identifier, start, x.types[i]) <==>
        CountTables(data, schema, pos, x.types[i]) <= opts.maxTables
            && Nesting(data, schema, pos, x.types[i]) <= opts.maxDepth
    ensures sizePrefix ==> VerifyScalar(data, opts, 0, 4) && ReadScalar(data, 0, 4) + 4 <= |data|
  {
    hide Holds;
    hide Conforms;
    hide Headed;
    hide VerifyOffset;
    hide VerifyScalar;
    hide TableChecked;
    hide BufferChecked;
    hide CountTables;
    hide Nesting;
    hide Target;
    HeldSize(data, x, minAlign, opts);
    HeldTableIsInside(data, x, minAlign, opts, i);
    HeaderIsChecked(data, x.tables[i].0, identifier, sizePrefix, opts);
    ConformsIsProper(x, schema);
    HeldTableIsChecked(data, x, minAlign, opts, schema, i);
    BufferPasses(data, schema, opts, identifier, if sizePrefix then 4 else 0, |data| - x.tables[i].0, x.types[i]);
  }

  lemma ConformsIsProper(x: Objects, schema: Schema)
    requires Conforms(x, schema)
    ensures WellFormed(schema) && |x.tables| == |x.types|
  {}

  lemma BufferPasses(data: seq<byte>, schema: Schema, opts: Options, identifier: Option<seq<byte>>, start: nat,
                     pos: nat, t: nat)
    requires WellFormed(schema) && t < |schema| && start <= 4 && pos <= |data|
      && (identifier.Some? ==> |identifier.value| == 4)
    requires |data| >= MIN_BUFFER_SIZE && (identifier.Some? ==> data[start + 4..start + 8] == identifier.value)
    requires VerifyOffset(data, opts, start) != 0 && Target(data, start) == pos
      && TableChecked(data, schema, opts, pos, t)
    ensures BufferChecked(data, schema, opts, identifier, start, t) <==>
      CountTables(data, schema, pos, t) <= opts.maxTables && Nesting(data, schema, pos, t) <= opts.maxDepth
  {
    hide TableChecked;
    hide CountTables;
    hide Nesting;
    hide VerifyOffset;
    hide Target;
  }

  lemma FinishedHolds(b: FlatBufferBuilder, types: seq<nat>, opts: Options)
    requires b.Valid() && Aligned(|b.data|, b.minAlign) && b.minAlign >= 4 && !b.nested
    requires MIN_BUFFER_SIZE <= |b.data| < 0x8000_0000 && |b.data| < opts.maxSize
    ensures Holds(b.data, Objects(b.tables, types, b.strings, b.vectors), b.minAlign, opts)
  {}

  /** Finishes a buffer and gives its bytes. */
  method FinishBuffer(b: FlatBufferBuilder, root: nat, identifier: Option<seq<byte>>, opts: Options,
                      ghost types: seq<nat>)
    returns (bytes: seq<byte>)
    requires b.Valid() && !b.nested && !b.finished && |b.data| <= MAX_BUFFER_SIZE - 32 && IsTable(b.tables, root)
    requires (identifier.Some? ==> |identifier.value| == 4) && MAX_BUFFER_SIZE <= opts.maxSize
    modifies b, b.buf, b.buf.memory
    ensures b.finished && b.tables == old(b.tables) && b.strings == old(b.strings) && b.vectors == old(b.vectors)
    ensures bytes == b.data
    ensures Headed(bytes, root, identifier, false)
      && Holds(bytes, Objects(b.tables, types, b.strings, b.vectors), b.minAlign, opts)
  {
    hide FlatBufferBuilder.Valid;
    hide Headed;
    hide Holds;
    b.Finish(root, identifier, false);
    bytes := b.GetBuffer();
    FinishedHolds(b, types, opts);
  }

  /** Finishing a buffer and verifying what came out: the verifier accepts exactly within its limits. */
  method FinishAndVerify(b: FlatBufferBuilder, schema: Schema, root: nat, t: nat, identifier: Option<seq<byte>>,
                         opts: Options,
                         ghost types: seq<nat>, ghost i: nat)
    returns (bytes: seq<byte>, ok: bool)
    requires b.Valid() && !b.nested && !b.finished && |b.data| <= MAX_BUFFER_SIZE - 32
      && (identifier.Some? ==> |identifier.value| == 4)
    requires Conforms(Objects(b.tables, types, b.strings, b.vectors), schema) && i < |b.tables| && b.tables[i].0 == root
      && types[i] == t
    requires MAX_BUFFER_SIZE <= opts.maxSize < TWO_64 / 2 && opts.maxDepth < 0xFFFF_FFFF && opts.maxTables < 0xFFFF_FFFF
    modifies b, b.buf, b.buf.memory
    ensures b.finished && b.tables == old(b.tables) && bytes == b.data && root <= |bytes| && t < |schema|
    ensures ok <==>
      && CountTables(bytes, schema, |bytes| - root, t) <= opts.maxTables
      && Nesting(bytes, schema, |bytes| - root, t) <= opts.maxDepth
  {
    hide FlatBufferBuilder.Valid;
    hide Conforms;
    hide BufferChecked;
    hide Holds;
    hide Headed;
    hide TableSound;
    hide CountTables;
    hide Nesting;
    ghost var x := Objects(b.tables, types, b.strings, b.vectors);
    bytes := FinishBuffer(b, root, identifier, opts, types);
    ConformsIsProper(x, schema);
    HeldSize(bytes, x, b.minAlign, opts);
    FinishedBufferIsAccepted(bytes, x, b.minAlign, opts, schema, i, identifier, false);
    var v := new Verifier(bytes, schema, opts);
    ok := v.VerifyBuffer(identifier, t);
  }
}
