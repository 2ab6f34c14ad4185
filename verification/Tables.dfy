/** Reading FlatBuffers tables: `table.h`, and when every read stays inside the buffer.

    A schema gives, for every type of table, its fields: the position of the field in the vtable and what it
    holds. */
module Tables {
  import opened Bytes
  import opened LittleEndian

  /** An unsigned number, or 0 where there are not enough bytes. */
  function ReadScalar(buf: seq<byte>, pos: int, w: nat): nat
    requires IsByteWidth(w)
  {
    if InBuffer(buf, pos, w) then ReadUInt(buf, pos, w) else 0
  }

  // ----- the accessors of a table at `pos` -----

  function VTable(buf: seq<byte>, pos: int): int {
    if InBuffer(buf, pos, 4) then pos - ReadInt(buf, pos, 4) else pos
  }

  /** Where the field is in the table, or 0 if it is not present. */
  function GetOptionalFieldOffset(buf: seq<byte>, pos: int, field: nat): nat {
    var vtable := VTable(buf, pos);
    if field < ReadScalar(buf, vtable, 2) then ReadScalar(buf, vtable + field, 2) else 0
  }

  function GetField(buf: seq<byte>, pos: int, field: nat, w: nat, default: nat): nat
    requires IsByteWidth(w)
  {
    var offset := GetOptionalFieldOffset(buf, pos, field);
    if offset != 0 then ReadScalar(buf, pos + offset, w) else default
  }

  /** Where the offset at `at` points. */
  function Target(buf: seq<byte>, at: int): int { at + ReadScalar(buf, at, 4) }

  function GetPointer(buf: seq<byte>, pos: int, field: nat): Option<int> {
    var offset := GetOptionalFieldOffset(buf, pos, field);
    if offset != 0 then Some(Target(buf, pos + offset)) else None
  }

  /** The reads of `GetOptionalFieldOffset` stay in the buffer, for every field. */
  predicate HasVTable(buf: seq<byte>, pos: int) {
    && InBuffer(buf, pos, 4) && InBuffer(buf, VTable(buf, pos), 2)
    && ReadScalar(buf, VTable(buf, pos), 2) % 2 == 0
    && InBuffer(buf, VTable(buf, pos), ReadScalar(buf, VTable(buf, pos), 2))
  }

  lemma FieldReadsAreInBounds(buf: seq<byte>, pos: int, field: nat)
    requires HasVTable(buf, pos) && field % 2 == 0 && field < ReadScalar(buf, VTable(buf, pos), 2)
    ensures InBuffer(buf, VTable(buf, pos) + field, 2)
  {}

  // ----- schemas -----

  datatype Kind =
    | Scalar(width: nat)
    | Str
    | Sub(table: nat)
    | ScalarVector(elemSize: nat)
    | StrVector
    | TableVector(table: nat)

  datatype Field = Field(offset: nat, kind: Kind, required: bool)

  type Schema = seq<seq<Field>>

  predicate WellFormed(schema: Schema) {
    forall t, k :: 0 <= t < |schema| && 0 <= k < |schema[t]| ==> WellFormedField(schema, schema[t][k])
  }

  predicate WellFormedField(schema: Schema, f: Field) {
    && f.offset % 2 == 0 && 4 <= f.offset < 0x1_0000
    && match f.kind
       case Scalar(w) => IsByteWidth(w)
       case ScalarVector(n) => n > 0
       case Sub(t) => t < |schema|
       case TableVector(t) => t < |schema|
       case _ => true
  }

  // ----- soundness: every read reachable from a table stays in the buffer -----

  /** The number of elements of a vector and its elements lie in the buffer. */
  predicate VectorSound(buf: seq<byte>, pos: int, elemSize: nat) {
    InBuffer(buf, pos, 4) && InBuffer(buf, pos + 4, elemSize * ReadScalar(buf, pos, 4))
  }

  /** The characters and the terminating NUL of a string lie in the buffer. */
  predicate StringSound(buf: seq<byte>, pos: int) {
    VectorSound(buf, pos, 1) && InBuffer(buf, pos + 4 + ReadScalar(buf, pos, 4), 1)
        && buf[pos + 4 + ReadScalar(buf, pos, 4)] == 0
  }

  ghost predicate TableSound(buf: seq<byte>, schema: Schema, pos: int, t: nat)
    requires WellFormed(schema) && t < |schema| && pos <= |buf|
    decreases |buf| - pos, 4
  {
    HasVTable(buf, pos) && forall k :: 0 <= k < |schema[t]| ==> FieldSound(buf, schema, pos, schema[t][k])
  }

  ghost predicate FieldSound(buf: seq<byte>, schema: Schema, pos: int, f: Field)
    requires WellFormed(schema) && WellFormedField(schema, f) && pos <= |buf|
    decreases |buf| - pos, 3
  {
    var offset := GetOptionalFieldOffset(buf, pos, f.offset);
    && (f.required ==> offset != 0)
    && (offset != 0 ==>
          match f.kind
          case Scalar(w) => InBuffer(buf, pos + offset, w)
          case _ =>
            && InBuffer(buf, pos + offset, 4) && pos + offset < Target(buf, pos + offset) < |buf|
            && TargetSound(buf, schema, Target(buf, pos + offset), f))
  }

  ghost predicate TargetSound(buf: seq<byte>, schema: Schema, at: int, f: Field)
    requires WellFormed(schema) && WellFormedField(schema, f) && !f.kind.Scalar? && at <= |buf|
    decreases |buf| - at, 5
  {
    match f.kind
    case Str => StringSound(buf, at)
    case Sub(t) => TableSound(buf, schema, at, t)
    case ScalarVector(n) => VectorSound(buf, at, n)
    case StrVector => VectorSound(buf, at, 4) && forall i :: 0 <= i < ReadScalar(buf, at, 4) ==>
        StringSound(buf, Target(buf, at + 4 + 4 * i))
    case TableVector(t) =>
      VectorSound(buf, at, 4) && forall i :: 0 <= i < ReadScalar(buf, at, 4) ==> ElementSound(buf, schema, at, t, i)
  }

  ghost predicate ElementSound(buf: seq<byte>, schema: Schema, at: int, t: nat, i: nat)
    requires WellFormed(schema) && t < |schema| && at <= |buf|
    decreases |buf| - at, 2
  {
    at < Target(buf, at + 4 + 4 * i) <= |buf| && TableSound(buf, schema, Target(buf, at + 4 + 4 * i), t)
  }

  // ----- how many tables a reader can visit, counting shared ones every time -----

  function CountTables(buf: seq<byte>, schema: Schema, pos: int, t: nat): nat
    requires WellFormed(schema) && t < |schema| && pos <= |buf|
    decreases |buf| - pos, 4, 0
  {
    1 + CountFields(buf, schema, pos, t, |schema[t]|)
  }

  function CountFields(buf: seq<byte>, schema: Schema, pos: int, t: nat, k: nat): nat
    requires WellFormed(schema) && t < |schema| && pos <= |buf| && k <= |schema[t]|
    decreases |buf| - pos, 3, k
  {
    if k == 0 then 0 else CountFields(buf, schema, pos, t, k - 1) + CountField(buf, schema, pos, schema[t][k - 1])
  }

  function CountField(buf: seq<byte>, schema: Schema, pos: int, f: Field): nat
    requires WellFormed(schema) && WellFormedField(schema, f) && pos <= |buf|
    decreases |buf| - pos, 2, 0
  {
    var offset := GetOptionalFieldOffset(buf, pos, f.offset);
    var target := Target(buf, pos + offset);
    if offset == 0 || f.kind.Scalar? || !(pos < target <= |buf|) then 0 else CountTarget(buf, schema, target, f)
  }

  function CountTarget(buf: seq<byte>, schema: Schema, at: int, f: Field): nat
    requires WellFormed(schema) && WellFormedField(schema, f) && !f.kind.Scalar? && at <= |buf|
    decreases |buf| - at, 6, 0
  {
    match f.kind
    case Sub(t) => CountTables(buf, schema, at, t)
    case TableVector(t) => CountElements(buf, schema, at, t, ReadScalar(buf, at, 4))
    case _ => 0
  }

  function CountElements(buf: seq<byte>, schema: Schema, at: int, t: nat, n: nat): nat
    requires WellFormed(schema) && t < |schema| && at <= |buf|
    decreases |buf| - at, 5, n
  {
    if n == 0 then 0
    else
      var target := Target(buf, at + 4 + 4 * (n - 1));
      CountElements(buf, schema, at, t, n - 1) + if at < target <= |buf| then CountTables(buf, schema, target, t) else 0
  }

  // ----- how deeply tables are nested -----

  function Nesting(buf: seq<byte>, schema: Schema, pos: int, t: nat): nat
    requires WellFormed(schema) && t < |schema| && pos <= |buf|
    decreases |buf| - pos, 4, 0
  {
    1 + NestingOfFields(buf, schema, pos, t, |schema[t]|)
  }

  function NestingOfFields(buf: seq<byte>, schema: Schema, pos: int, t: nat, k: nat): nat
    requires WellFormed(schema) && t < |schema| && pos <= |buf| && k <= |schema[t]|
    decreases |buf| - pos, 3, k
  {
    if k == 0 then 0 else Max(NestingOfFields(buf, schema, pos, t, k - 1),
        NestingOfField(buf, schema, pos, schema[t][k - 1]))
  }

  function NestingOfField(buf: seq<byte>, schema: Schema, pos: int, f: Field): nat
    requires WellFormed(schema) && WellFormedField(schema, f) && pos <= |buf|
    decreases |buf| - pos, 2, 0
  {
    var offset := GetOptionalFieldOffset(buf, pos, f.offset);
    var target := Target(buf, pos + offset);
    if offset == 0 || f.kind.Scalar? || !(pos < target <= |buf|) then 0 else NestingOfTarget(buf, schema, target, f)
  }

  function NestingOfTarget(buf: seq<byte>, schema: Schema, at: int, f: Field): nat
    requires WellFormed(schema) && WellFormedField(schema, f) && !f.kind.Scalar? && at <= |buf|
    decreases |buf| - at, 6, 0
  {
    match f.kind
    case Sub(t) => Nesting(buf, schema, at, t)
    case TableVector(t) => NestingOfElements(buf, schema, at, t, ReadScalar(buf, at, 4))
    case _ => 0
  }

  function NestingOfElements(buf: seq<byte>, schema: Schema, at: int, t: nat, n: nat): nat
    requires WellFormed(schema) && t < |schema| && at <= |buf|
    decreases |buf| - at, 5, n
  {
    if n == 0 then 0
    else
      var target := Target(buf, at + 4 + 4 * (n - 1));
      Max(NestingOfElements(buf, schema, at, t, n - 1),
          if at < target <= |buf| then Nesting(buf, schema, target, t) else 0)
  }
}
