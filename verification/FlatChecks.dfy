/** The checks of the FlatBuffers verifier as conditions on the buffer, and what they promise a reader:
    `verifier.h`, with the verification code generated for a schema. */
module FlatChecks {
  import opened Bytes
  import opened LittleEndian
  import opened Tables

  datatype Options = Options(maxDepth: nat, maxTables: nat, checkAlignment: bool, maxSize: nat)

  const MIN_BUFFER_SIZE := 12

  // ----- ranges -----

  /** Any range within the buffer; one as long as the whole buffer is refused. */
  predicate Verify(buf: seq<byte>, elem: nat, n: nat) { n < |buf| && elem <= |buf| - n }

  predicate VerifyAlignment(opts: Options, elem: nat, align: nat)
    requires align > 0
  {
    elem % align == 0 || !opts.checkAlignment
  }

  predicate VerifyScalar(buf: seq<byte>, opts: Options, elem: nat, w: nat)
    requires IsByteWidth(w)
  {
    VerifyAlignment(opts, elem, w) && Verify(buf, elem, w)
  }

  /** The offset stored at `start`, or 0 if it may not be followed. */
  function VerifyOffset(buf: seq<byte>, opts: Options, start: nat): (o: nat)
    ensures o != 0 ==> InBuffer(buf, start, 4) && o == ReadScalar(buf, start, 4) && start < Target(buf, start) < |buf|
  {
    if !VerifyScalar(buf, opts, start, 4) then 0
    else
      var o := ReadScalar(buf, start, 4);
      if o == 0 || Signed(o, 4) < 0 || !Verify(buf, start + o, 1) then 0 else o
  }

  // ----- what is accepted -----

  predicate VectorChecked(buf: seq<byte>, opts: Options, vec: nat, elemSize: nat)
    requires elemSize > 0
  {
    var n := ReadScalar(buf, vec, 4);
    VerifyScalar(buf, opts, vec, 4) && n < opts.maxSize / elemSize && Verify(buf, vec, 4 + elemSize * n)
  }

  predicate StringChecked(buf: seq<byte>, opts: Options, str: nat) {
    var end := str + 4 + ReadScalar(buf, str, 4);
    VectorChecked(buf, opts, str, 1) && Verify(buf, end, 1) && buf[end] == 0
  }

  /** The offset to the vtable, the size of the vtable, and the vtable as a whole. */
  predicate StartChecked(buf: seq<byte>, opts: Options, table: nat) {
    && VerifyScalar(buf, opts, table, 4)
    && var vtable := VTable(buf, table);
       vtable >= 0 && VerifyScalar(buf, opts, vtable, 2) && ReadScalar(buf, vtable, 2) % 2 == 0
           && Verify(buf, vtable, ReadScalar(buf, vtable, 2))
  }

  ghost predicate TableChecked(buf: seq<byte>, schema: Schema, opts: Options, pos: nat, t: nat)
    requires WellFormed(schema) && t < |schema| && pos <= |buf|
    decreases |buf| - pos, 4
  {
    StartChecked(buf, opts, pos) && forall k :: 0 <= k < |schema[t]| ==>
        FieldChecked(buf, schema, opts, pos, schema[t][k])
  }

  ghost predicate FieldChecked(buf: seq<byte>, schema: Schema, opts: Options, pos: nat, f: Field)
    requires WellFormed(schema) && WellFormedField(schema, f) && pos <= |buf|
    decreases |buf| - pos, 3
  {
    var offset := GetOptionalFieldOffset(buf, pos, f.offset);
    if offset == 0 then !f.required
    else
      match f.kind
      case Scalar(w) => VerifyScalar(buf, opts, pos + offset, w)
      case _ =>
        && VerifyOffset(buf, opts, pos + offset) != 0
        && TargetChecked(buf, schema, opts, Target(buf, pos + offset), f)
  }

  ghost predicate TargetChecked(buf: seq<byte>, schema: Schema, opts: Options, at: nat, f: Field)
    requires WellFormed(schema) && WellFormedField(schema, f) && !f.kind.Scalar? && at <= |buf|
    decreases |buf| - at, 5
  {
    match f.kind
    case Str => StringChecked(buf, opts, at)
    case Sub(t) => TableChecked(buf, schema, opts, at, t)
    case ScalarVector(n) => VectorChecked(buf, opts, at, n)
    case StrVector =>
      VectorChecked(buf, opts, at, 4) && forall i :: 0 <= i < ReadScalar(buf, at, 4) ==>
          StringChecked(buf, opts, Target(buf, at + 4 + 4 * i))
    case TableVector(t) =>
      VectorChecked(buf, opts, at, 4) && forall i :: 0 <= i < ReadScalar(buf, at, 4) ==>
          ElementChecked(buf, schema, opts, at, t, i)
  }

  ghost predicate ElementChecked(buf: seq<byte>, schema: Schema, opts: Options, at: nat, t: nat, i: nat)
    requires WellFormed(schema) && t < |schema| && at <= |buf|
    decreases |buf| - at, 2
  {
    var target := Target(buf, at + 4 + 4 * i);
    target <= |buf| && TableChecked(buf, schema, opts, target, t)
  }

  /** The whole buffer, with limits on the tables met on the way and on their nesting. */
  ghost predicate Accepted(buf: seq<byte>, schema: Schema, opts: Options, depth: nat, seen: nat, pos: nat, t: nat)
    requires WellFormed(schema) && t < |schema|
  {
    && pos <= |buf| && TableChecked(buf, schema, opts, pos, t)
    && seen + CountTables(buf, schema, pos, t) <= opts.maxTables
    && depth + Nesting(buf, schema, pos, t) <= opts.maxDepth
  }

  ghost predicate BufferChecked(buf: seq<byte>, schema: Schema, opts: Options, identifier: Option<seq<byte>>,
                                start: nat, t: nat)
    requires WellFormed(schema) && t < |schema| && start <= 4 && (identifier.Some? ==> |identifier.value| == 4)
  {
    && |buf| >= MIN_BUFFER_SIZE && (identifier.Some? ==> buf[start + 4..start + 8] == identifier.value)
    && VerifyOffset(buf, opts, start) != 0 && Accepted(buf, schema, opts, 0, 0, Target(buf, start), t)
  }

  // ----- what is accepted can be read -----

  lemma VectorIsSound(buf: seq<byte>, opts: Options, vec: nat, elemSize: nat)
    requires elemSize > 0 && VectorChecked(buf, opts, vec, elemSize)
    ensures VectorSound(buf, vec, elemSize)
  {}

  lemma StringIsSound(buf: seq<byte>, opts: Options, str: nat)
    requires StringChecked(buf, opts, str)
    ensures StringSound(buf, str)
  {}

  lemma {:induction false} TableIsSound(buf: seq<byte>, schema: Schema, opts: Options, pos: nat, t: nat)
    requires WellFormed(schema) && t < |schema| && pos <= |buf| && TableChecked(buf, schema, opts, pos, t)
    ensures TableSound(buf, schema, pos, t)
    decreases |buf| - pos, 4
  {
    forall k | 0 <= k < |schema[t]|
      ensures FieldSound(buf, schema, pos, schema[t][k])
    {
      FieldIsSound(buf, schema, opts, pos, schema[t][k]);
    }
  }

  lemma {:induction false} FieldIsSound(buf: seq<byte>, schema: Schema, opts: Options, pos: nat, f: Field)
    requires WellFormed(schema) && WellFormedField(schema, f) && pos <= |buf| && FieldChecked(buf, schema, opts, pos, f)
    ensures FieldSound(buf, schema, pos, f)
    decreases |buf| - pos, 3
  {
    var offset := GetOptionalFieldOffset(buf, pos, f.offset);
    if offset != 0 && !f.kind.Scalar? {
      TargetIsSound(buf, schema, opts, Target(buf, pos + offset), f);
    }
  }

  lemma {:induction false} TargetIsSound(buf: seq<byte>, schema: Schema, opts: Options, at: nat, f: Field)
    requires WellFormed(schema) && WellFormedField(schema, f) && !f.kind.Scalar? && at <= |buf|
      && TargetChecked(buf, schema, opts, at, f)
    ensures TargetSound(buf, schema, at, f)
    decreases |buf| - at, 5
  {
    match f.kind
    case Str => StringIsSound(buf, opts, at);
    case Sub(t) => TableIsSound(buf, schema, opts, at, t);
    case ScalarVector(n) => VectorIsSound(buf, opts, at, n);
    case StrVector =>
      VectorIsSound(buf, opts, at, 4);
      forall i | 0 <= i < ReadScalar(buf, at, 4)
        ensures StringSound(buf, Target(buf, at + 4 + 4 * i))
      {
        StringIsSound(buf, opts, Target(buf, at + 4 + 4 * i));
      }
    case TableVector(t) =>
      VectorIsSound(buf, opts, at, 4);
      forall i | 0 <= i < ReadScalar(buf, at, 4)
        ensures ElementSound(buf, schema, at, t, i)
      {
        ElementIsSound(buf, schema, opts, at, t, i);
      }
  }

  lemma {:induction false} ElementIsSound(buf: seq<byte>, schema: Schema, opts: Options, at: nat, t: nat, i: nat)
    requires WellFormed(schema) && t < |schema| && at <= |buf| && ElementChecked(buf, schema, opts, at, t, i)
    ensures ElementSound(buf, schema, at, t, i)
    decreases |buf| - at, 2
  {
    TableIsSound(buf, schema, opts, Target(buf, at + 4 + 4 * i), t);
  }

  // ----- the counts grow -----

  lemma {:induction false} FieldsGrow(buf: seq<byte>, schema: Schema, pos: nat, t: nat, j: nat, k: nat)
    requires WellFormed(schema) && t < |schema| && pos <= |buf| && j <= k <= |schema[t]|
    ensures CountFields(buf, schema, pos, t, j) <= CountFields(buf, schema, pos, t, k)
    ensures NestingOfFields(buf, schema, pos, t, j) <= NestingOfFields(buf, schema, pos, t, k)
    decreases k
  {
    if j < k {
      FieldsGrow(buf, schema, pos, t, j, k - 1);
    }
  }

  lemma {:induction false} ElementsGrow(buf: seq<byte>, schema: Schema, at: nat, t: nat, j: nat, k: nat)
    requires WellFormed(schema) && t < |schema| && at <= |buf| && j <= k
    ensures CountElements(buf, schema, at, t, j) <= CountElements(buf, schema, at, t, k)
    ensures NestingOfElements(buf, schema, at, t, j) <= NestingOfElements(buf, schema, at, t, k)
    decreases k
  {
    if j < k {
      ElementsGrow(buf, schema, at, t, j, k - 1);
    }
  }

  /** One field that fails its check, or goes over a limit, is enough to refuse the table. */
  lemma TableRefused(buf: seq<byte>, schema: Schema, opts: Options, depth: nat, seen: nat, pos: nat, t: nat, k: nat)
    requires WellFormed(schema) && t < |schema| && pos <= |buf| && k < |schema[t]|
    requires var f := schema[t][k];
      !(&& FieldChecked(buf, schema, opts, pos, f)
          && seen + 1 + CountFields(buf, schema, pos, t, k) + CountField(buf, schema, pos, f) <= opts.maxTables
        && depth + 1 + NestingOfField(buf, schema, pos, f) <= opts.maxDepth)
    ensures !Accepted(buf, schema, opts, depth, seen, pos, t)
  {
    FieldsGrow(buf, schema, pos, t, k + 1, |schema[t]|);
    hide FieldChecked;
    hide StartChecked;
    hide CountField;
    hide NestingOfField;
  }

  /** Every field passes, and so does the table. */
  lemma TableAllowed(buf: seq<byte>, schema: Schema, opts: Options, depth: nat, seen: nat, pos: nat, t: nat)
    requires WellFormed(schema) && t < |schema| && pos <= |buf| && StartChecked(buf, opts, pos)
    requires forall j :: 0 <= j < |schema[t]| ==> FieldChecked(buf, schema, opts, pos, schema[t][j])
    requires seen + 1 + CountFields(buf, schema, pos, t, |schema[t]|) <= opts.maxTables
    requires depth + 1 + NestingOfFields(buf, schema, pos, t, |schema[t]|) <= opts.maxDepth
    ensures Accepted(buf, schema, opts, depth, seen, pos, t)
    ensures CountTables(buf, schema, pos, t) == 1 + CountFields(buf, schema, pos, t, |schema[t]|)
  {
    hide FieldChecked;
    hide StartChecked;
  }

  /** A table that cannot begin is refused, and so is one beyond the limits. */
  lemma StartRefused(buf: seq<byte>, schema: Schema, opts: Options, depth: nat, seen: nat, pos: nat, t: nat)
    requires WellFormed(schema) && t < |schema|
    requires !(StartChecked(buf, opts, pos) && depth + 1 <= opts.maxDepth && seen + 1 <= opts.maxTables)
    ensures !Accepted(buf, schema, opts, depth, seen, pos, t)
  {
    hide FieldChecked;
    hide StartChecked;
  }

  ghost predicate ElementsChecked(buf: seq<byte>, schema: Schema, opts: Options, depth: nat, seen: nat, at: nat,
                                  t: nat, n: nat)
    requires WellFormed(schema) && t < |schema| && at <= |buf|
  {
    && (forall i :: 0 <= i < n ==> ElementChecked(buf, schema, opts, at, t, i))
    && seen + CountElements(buf, schema, at, t, n) <= opts.maxTables
    && depth + NestingOfElements(buf, schema, at, t, n) <= opts.maxDepth
  }

  lemma ElementsRefused(buf: seq<byte>, schema: Schema, opts: Options, depth: nat, seen: nat, at: nat, t: nat, i: nat,
                        n: nat)
    requires WellFormed(schema) && t < |schema| && at <= |buf| && i < n
    requires !Accepted(buf, schema, opts, depth, seen + CountElements(buf, schema, at, t, i),
      Target(buf, at + 4 + 4 * i), t)
    ensures !ElementsChecked(buf, schema, opts, depth, seen, at, t, n)
  {
    ElementsGrow(buf, schema, at, t, i + 1, n);
    hide TableChecked;
    hide CountTables;
    hide Nesting;
    if ElementsChecked(buf, schema, opts, depth, seen, at, t, n) {
      assert ElementChecked(buf, schema, opts, at, t, i);
    }
  }

  lemma ElementAllowed(buf: seq<byte>, schema: Schema, opts: Options, depth: nat, seen: nat, at: nat, t: nat, i: nat)
    requires WellFormed(schema) && t < |schema| && at <= |buf|
    requires ElementsChecked(buf, schema, opts, depth, seen, at, t, i)
    requires Accepted(buf, schema, opts, depth, seen + CountElements(buf, schema, at, t, i),
      Target(buf, at + 4 + 4 * i), t)
    ensures ElementsChecked(buf, schema, opts, depth, seen, at, t, i + 1)
    ensures CountElements(buf, schema, at, t, i + 1) ==
            CountElements(buf, schema, at, t, i) + CountTables(buf, schema, Target(buf, at + 4 + 4 * i), t)
  {
    hide TableChecked;
    hide CountTables;
    hide Nesting;
  }
}
