/** Verifying an untrusted FlatBuffer: `verifier.h`, with the verification code generated for a schema.

    The generated code of a table checks its start, then each field in turn, then ends the table. */
module FlatVerifier {
  import opened Arithmetic

  import opened Bytes

  import opened LittleEndian

  import opened Tables

  import opened FlatChecks

  lemma StartIsInside(buf: seq<byte>, opts: Options, table: nat)
    requires StartChecked(buf, opts, table)
    ensures table <= |buf|
  {}

  lemma BytesDoNotWrap(n: nat, elemSize: nat, maxSize: nat)
    requires elemSize > 0 && n < maxSize / elemSize && maxSize < TWO_64 / 2
    ensures (4 + elemSize * n) % TWO_64 == 4 + elemSize * n
  {
    assert maxSize == elemSize * (maxSize / elemSize) + maxSize % elemSize;
    ProductGrows(n, maxSize / elemSize, elemSize);
    SmallOverLarge(4 + elemSize * n, TWO_64);
  }

  lemma OffsetIsSmall(buf: seq<byte>, pos: nat)
    requires InBuffer(buf, pos, 4)
    ensures -0x8000_0000 <= ReadInt(buf, pos, 4) < 0x8000_0000
  {
    FromBytesIsSmall(buf[pos..pos + 4]);
    PowersAreLimits(4);
  }

  /** A position that wrapped around is far outside any buffer. */
  lemma WrappedOffset(x: int, size: nat)
    requires -TWO_64 / 2 < x && x < TWO_64 && size < TWO_64 / 2
    ensures x % TWO_64 <= size <==> 0 <= x <= size
    ensures x >= 0 ==> x % TWO_64 == x
  {}

  // ----- what acceptance means for a reader -----

  /** Any scalar field of an accepted table is read inside the buffer, with the default if it is missing. */
  lemma ScalarFieldIsReadable(buf: seq<byte>, schema: Schema, pos: int, t: nat, k: nat)
    requires WellFormed(schema) && t < |schema| && k < |schema[t]| && pos <= |buf| && TableSound(buf, schema, pos, t)
    requires schema[t][k].kind.Scalar?
    ensures var f := schema[t][k]; var offset := GetOptionalFieldOffset(buf, pos, f.offset);
      && (f.required ==> offset != 0)
      && (offset != 0 ==> InBuffer(buf, pos + offset, f.kind.width) && InBuffer(buf, VTable(buf, pos) + f.offset, 2))
  {
    var f := schema[t][k];
    assert FieldSound(buf, schema, pos, f);
    if GetOptionalFieldOffset(buf, pos, f.offset) != 0 {
      FieldReadsAreInBounds(buf, pos, f.offset);
    }
  }

  /** A pointer field of an accepted table leads to an accepted target further on, so following pointers ends. */
  lemma PointerFieldIsReadable(buf: seq<byte>, schema: Schema, pos: int, t: nat, k: nat)
    requires WellFormed(schema) && t < |schema| && k < |schema[t]| && pos <= |buf| && TableSound(buf, schema, pos, t)
    requires !schema[t][k].kind.Scalar? && GetPointer(buf, pos, schema[t][k].offset).Some?
    ensures pos < GetPointer(buf, pos, schema[t][k].offset).value < |buf|
    ensures TargetSound(buf, schema, GetPointer(buf, pos, schema[t][k].offset).value, schema[t][k])
  {
    assert FieldSound(buf, schema, pos, schema[t][k]);
  }

  /** Element `i` of an accepted vector of scalars, and character `i` of an accepted string, lie in the buffer. */
  lemma ElementIsReadable(buf: seq<byte>, pos: int, elemSize: nat, i: nat)
    requires VectorSound(buf, pos, elemSize) && i < ReadScalar(buf, pos, 4)
    ensures InBuffer(buf, pos + 4 + elemSize * i, elemSize)
  {
    ProductGrows(i + 1, ReadScalar(buf, pos, 4), elemSize);
    Distributes(i, 1, elemSize);
  }

  // ----- the verifier -----

  class Verifier {
    const buf: seq<byte>
    const schema: Schema
    const opts: Options
    var depth: nat
    var numTables: nat

    /** The counters have 32 bits and the sizes 64. */
    predicate Valid() {
      WellFormed(schema) && |buf| < opts.maxSize < TWO_64 / 2 && opts.maxDepth < 0xFFFF_FFFF
          && opts.maxTables < 0xFFFF_FFFF
    }

    constructor (buf: seq<byte>, schema: Schema, opts: Options)
      requires WellFormed(schema) && |buf| < opts.maxSize < TWO_64 / 2 && opts.maxDepth < 0xFFFF_FFFF
        && opts.maxTables < 0xFFFF_FFFF
      ensures Valid() && this.buf == buf && this.schema == schema && this.opts == opts && depth == 0 && numTables == 0
    {
      this.buf, this.schema, this.opts, depth, numTables := buf, schema, opts, 0, 0;
    }

    /** The size field and then all elements; the limit on the number keeps the size in bytes from wrapping. */
    method VerifyVectorOrString(vec: nat, elemSize: nat) returns (ok: bool, end: nat)
      requires Valid() && elemSize > 0
      ensures ok <==> VectorChecked(buf, opts, vec, elemSize)
      ensures ok ==> end == vec + 4 + elemSize * ReadScalar(buf, vec, 4)
    {
      end := 0;
      if !VerifyScalar(buf, opts, vec, 4) {
        return false, 0;
      }
      var n := ReadScalar(buf, vec, 4);
      if n >= opts.maxSize / elemSize {
        return false, 0;
      }
      BytesDoNotWrap(n, elemSize, opts.maxSize);
      var byteSize := (4 + elemSize * n) % TWO_64;
      end := vec + byteSize;
      ok := Verify(buf, vec, byteSize);
    }

    method VerifyString(str: nat) returns (ok: bool)
      requires Valid()
      ensures ok <==> StringChecked(buf, opts, str)
    {
      var end;
      ok, end := VerifyVectorOrString(str, 1);
      ok := ok && Verify(buf, end, 1) && buf[end] == 0;
    }

    // ----- tables -----

    /** Counts the table and refuses it when there are too many or they are nested too deeply. */
    method VerifyComplexity() returns (ok: bool)
      requires Valid()
      modifies this
      ensures depth == old(depth) + 1 && numTables == old(numTables) + 1
      ensures ok <==> depth <= opts.maxDepth && numTables <= opts.maxTables
    {
      depth := depth + 1;
      numTables := numTables + 1;
      ok := depth <= opts.maxDepth && numTables <= opts.maxTables;
    }

    method EndTable() returns (ok: bool)
      requires depth > 0
      modifies this
      ensures ok && depth == old(depth) - 1 && numTables == old(numTables)
    {
      depth := depth - 1;
      ok := true;
    }

    /** The offset to the vtable, the size of the vtable, and the vtable as a whole. */
    method VerifyTableStart(table: nat) returns (ok: bool)
      requires Valid() && numTables <= opts.maxTables && depth <= opts.maxDepth
      modifies this
      ensures ok <==>
        StartChecked(buf, opts, table) && old(depth) + 1 <= opts.maxDepth && old(numTables) + 1 <= opts.maxTables
      ensures ok ==> depth == old(depth) + 1 && numTables == old(numTables) + 1
    {
      if !VerifyScalar(buf, opts, table, 4) {
        return false;
      }
      var vtableo := (table - ReadInt(buf, table, 4)) % TWO_64;
      OffsetIsSmall(buf, table);
      WrappedOffset(table - ReadInt(buf, table, 4), |buf|);
      ok := VerifyComplexity();
      ok := ok && VerifyScalar(buf, opts, vtableo, 2) && VerifyAlignment(opts, ReadScalar(buf, vtableo, 2), 2);
      if ok {
        var vsize := ReadScalar(buf, vtableo, 2);
        ok := vsize % 2 == 0 && Verify(buf, vtableo, vsize);
      }
    }

    /** The generated check of a table accepts it exactly when every part passes its check and the limits allow it. */
    method VerifyTable(table: nat, t: nat) returns (ok: bool)
      requires Valid() && t < |schema| && numTables <= opts.maxTables && depth <= opts.maxDepth
      modifies this
      ensures ok <==> Accepted(buf, schema, opts, old(depth), old(numTables), table, t)
      ensures ok ==> depth == old(depth) && numTables == old(numTables) + CountTables(buf, schema, table, t)
      decreases opts.maxTables - numTables, 1, 0
    {
      hide FieldChecked;
      hide StartChecked;
      hide Accepted;
      hide CountTables;
      hide CountField;
      hide NestingOfField;
      ghost var d, seen := depth, numTables;
      ok := VerifyTableStart(table);
      if !ok {
        StartRefused(buf, schema, opts, d, seen, table, t);
        return;
      }
      StartIsInside(buf, opts, table);
      for k := 0 to |schema[t]|
        invariant depth == d + 1 <= opts.maxDepth
        invariant seen < numTables == seen + 1 + CountFields(buf, schema, table, t, k) <= opts.maxTables
        invariant depth + NestingOfFields(buf, schema, table, t, k) <= opts.maxDepth
        invariant forall j :: 0 <= j < k ==> FieldChecked(buf, schema, opts, table, schema[t][j])
      {
        ok := VerifyField(table, schema[t][k]);
        if !ok {
          TableRefused(buf, schema, opts, d, seen, table, t, k);
          return;
        }
      }
      ok := EndTable();
      TableAllowed(buf, schema, opts, d, seen, table, t);
    }

    /** The generated check of one field. */
    method VerifyField(table: nat, f: Field) returns (ok: bool)
      requires Valid() && WellFormedField(schema, f) && table <= |buf| && numTables <= opts.maxTables
        && depth <= opts.maxDepth
      modifies this
      ensures ok <==>
              && FieldChecked(buf, schema, opts, table, f)
              && old(numTables) + CountField(buf, schema, table, f) <= opts.maxTables
              && old(depth) + NestingOfField(buf, schema, table, f) <= opts.maxDepth
      ensures ok ==> depth == old(depth) && numTables == old(numTables) + CountField(buf, schema, table, f)
      decreases opts.maxTables - numTables, 3, 0
    {
      var offset := GetOptionalFieldOffset(buf, table, f.offset);
      if offset == 0 {
        return !f.required;
      }
      var at := table + offset;
      if f.kind.Scalar? {
        return VerifyScalar(buf, opts, at, f.kind.width);
      }
      if VerifyOffset(buf, opts, at) == 0 {
        return false;
      }
      ok := VerifyTarget(Target(buf, at), f);
    }

    /** The generated check of what an offset field points to. */
    method VerifyTarget(target: nat, f: Field) returns (ok: bool)
      requires Valid() && WellFormedField(schema, f) && !f.kind.Scalar? && target <= |buf|
        && numTables <= opts.maxTables && depth <= opts.maxDepth
      modifies this
      ensures ok <==>
              && TargetChecked(buf, schema, opts, target, f)
              && old(numTables) + CountTarget(buf, schema, target, f) <= opts.maxTables
              && old(depth) + NestingOfTarget(buf, schema, target, f) <= opts.maxDepth
      ensures ok ==> depth == old(depth) && numTables == old(numTables) + CountTarget(buf, schema, target, f)
      decreases opts.maxTables - numTables, 2, 0
    {
      match f.kind {
        case Str => ok := VerifyString(target);
        case ScalarVector(n) => var end; ok, end := VerifyVectorOrString(target, n);
        case StrVector =>
          var end;
          ok, end := VerifyVectorOrString(target, 4);
          if ok {
            ok := VerifyVectorOfStrings(target);
            assert ok <==> TargetChecked(buf, schema, opts, target, f);
          }
        case Sub(t) =>
          ok := VerifyTable(target, t);
        case TableVector(t) =>
          var end;
          ok, end := VerifyVectorOrString(target, 4);
          if ok {
            ok := VerifyVectorOfTables(target, t);
            assert CountTarget(buf, schema, target, f) == CountElements(buf, schema, target, t,
                ReadScalar(buf, target, 4));
            assert NestingOfTarget(buf, schema, target, f) == NestingOfElements(buf, schema, target, t,
                ReadScalar(buf, target, 4));
          }
      }
    }

    method VerifyVectorOfStrings(vec: nat) returns (ok: bool)
      requires Valid() && VectorChecked(buf, opts, vec, 4)
      ensures ok <==> forall i :: 0 <= i < ReadScalar(buf, vec, 4) ==>
        StringChecked(buf, opts, Target(buf, vec + 4 + 4 * i))
    {
      for i := 0 to ReadScalar(buf, vec, 4)
        invariant forall j :: 0 <= j < i ==> StringChecked(buf, opts, Target(buf, vec + 4 + 4 * j))
      {
        ok := VerifyString(Target(buf, vec + 4 + 4 * i));
        if !ok {
          return;
        }
      }
      ok := true;
    }

    method VerifyVectorOfTables(vec: nat, t: nat) returns (ok: bool)
      requires Valid() && t < |schema| && vec <= |buf| && VectorChecked(buf, opts, vec, 4)
      requires numTables <= opts.maxTables && depth <= opts.maxDepth
      modifies this
      ensures ok <==> ElementsChecked(buf, schema, opts, old(depth), old(numTables), vec, t, ReadScalar(buf, vec, 4))
      ensures ok ==> depth == old(depth)
      ensures ok ==> numTables == old(numTables) + CountElements(buf, schema, vec, t, ReadScalar(buf, vec, 4))
      decreases opts.maxTables - numTables, 1, 1
    {
      ghost var seen := numTables;
      for i := 0 to ReadScalar(buf, vec, 4)
        invariant depth == old(depth)
        invariant seen <= numTables == seen + CountElements(buf, schema, vec, t, i) <= opts.maxTables
        invariant ElementsChecked(buf, schema, opts, depth, seen, vec, t, i)
      {
        hide Accepted;
        hide ElementsChecked;
        hide ElementChecked;
        hide CountElements;
        ok := VerifyTable(Target(buf, vec + 4 + 4 * i), t);
        if !ok {
          ElementsRefused(buf, schema, opts, old(depth), seen, vec, t, i, ReadScalar(buf, vec, 4));
          return;
        }
        ElementAllowed(buf, schema, opts, depth, seen, vec, t, i);
      }
      ok := true;
    }

    // ----- whole buffers -----

    /** The root offset at `start`, after the optional four-byte identifier behind it. */
    method VerifyBufferFromStart(identifier: Option<seq<byte>>, start: nat, t: nat) returns (ok: bool)
      requires Valid() && t < |schema| && start <= 4 && depth == 0 && numTables == 0
        && (identifier.Some? ==> |identifier.value| == 4)
      modifies this
      ensures ok <==> BufferChecked(buf, schema, opts, identifier, start, t)
    {
      if |buf| < MIN_BUFFER_SIZE {
        return false;
      }
      if identifier.Some? && !(|buf| >= 8 && buf[start + 4..start + 8] == identifier.value) {
        return false;
      }
      var o := VerifyOffset(buf, opts, start);
      if o == 0 {
        return false;
      }
      ok := VerifyTable(start + o, t);
    }

    /** What is accepted can be read: every read that follows the schema from the root stays in the buffer. */
    method VerifyBuffer(identifier: Option<seq<byte>>, t: nat) returns (ok: bool)
      requires Valid() && t < |schema| && depth == 0 && numTables == 0 && (identifier.Some? ==> |identifier.value| == 4)
      modifies this
      ensures ok <==> BufferChecked(buf, schema, opts, identifier, 0, t)
      ensures ok ==> 0 < Target(buf, 0) < |buf| && TableSound(buf, schema, Target(buf, 0), t)
    {
      ok := VerifyBufferFromStart(identifier, 0, t);
      if ok {
        TableIsSound(buf, schema, opts, Target(buf, 0), t);
      }
    }

    /** A buffer behind a size field, which must not claim more than there is. */
    method VerifySizePrefixedBuffer(identifier: Option<seq<byte>>, t: nat) returns (ok: bool)
      requires Valid() && t < |schema| && depth == 0 && numTables == 0 && (identifier.Some? ==> |identifier.value| == 4)
      modifies this
      ensures ok <==>
        && VerifyScalar(buf, opts, 0, 4) && ReadScalar(buf, 0, 4) + 4 <= |buf|
        && BufferChecked(buf, schema, opts, identifier, 4, t)
      ensures ok ==> 4 < Target(buf, 4) < |buf| && TableSound(buf, schema, Target(buf, 4), t)
    {
      if !VerifyScalar(buf, opts, 0, 4) || ReadScalar(buf, 0, 4) + 4 > |buf| {
        return false;
      }
      ok := VerifyBufferFromStart(identifier, 4, t);
      if ok {
        TableIsSound(buf, schema, opts, Target(buf, 4), t);
      }
    }
  }
}
