/** Values on the stack of a FlexBuffers builder, and the bytes they become: `flexbuffers.h`. */
module FlexValues {
  import opened Arithmetic
  import opened Bytes
  import opened FlexScalars
  import opened LittleEndian
  import opened FlexReader

  /** A number, or the position of an object already in the buffer. */
  datatype Value = Value(n: int, typ: int, minWidth: BitWidth) {

    /** The width a parent needs for this element at `index`. */
    function ElemWidth(size: nat, index: nat): BitWidth
      requires !IsInline(typ) ==> n >= 0
    {
      if IsInline(typ) then minWidth else OffsetWidth(size, index, n)
    }

    function StoredWidth(parent: BitWidth): BitWidth {
      if IsInline(typ) then Max(minWidth, parent) else minWidth
    }

    function StoredPackedType(parent: BitWidth): byte
      requires 0 <= typ <= FBT_MAX_TYPE
    {
      PackedType(StoredWidth(parent), typ)
    }

    /** What is written for the value at position `pos`: itself, or the distance back to its object. */
    function AnyBytes(pos: nat, w: nat): (r: seq<byte>)
      ensures |r| == w
    {
      ToBytes(if IsInline(typ) then n else pos - n, w)
    }
  }

  /** The value stands for the tree in this buffer. */
  ghost predicate Holds(buf: seq<byte>, v: Value, tree: Tree) {
    match tree
    case Null => v == Value(0, FBT_NULL, 0)
    case Bool(b) => v == Value(if b then 1 else 0, FBT_BOOL, 0)
    case Int(i) => IsInt64(i) && v == Value(i, FBT_INT, WidthI(i))
    case UInt(u) => IsUInt64(u) && v == Value(u, FBT_UINT, WidthU(u))
    case _ => 0 <= v.n <= |buf| && Stored(buf, v.n, ByteWidth(v.minWidth), v.typ, tree)
  }

  lemma HoldsShape(buf: seq<byte>, v: Value, tree: Tree)
    requires Holds(buf, v, tree)
    ensures 0 <= v.typ < FBT_MAX_TYPE && v.typ != FBT_FLOAT
    ensures !IsInline(v.typ) ==> 0 <= v.n <= |buf|
    ensures !IsInline(v.typ) <==> !tree.Null? && !tree.Bool? && !tree.Int? && !tree.UInt?
  {}

  lemma HoldsStays(buf: seq<byte>, more: seq<byte>, v: Value, tree: Tree)
    requires Holds(buf, v, tree)
    ensures Holds(buf + more, v, tree)
  {
    if !tree.Null? && !tree.Bool? && !tree.Int? && !tree.UInt? {
      StoredStays(buf, more, v.n, ByteWidth(v.minWidth), v.typ, tree);
    }
  }

  /** The value fits an element of `w` bytes at `pos`. */
  predicate Fits(v: Value, pos: nat, w: nat) {
    IsByteWidth(w) &&
    if v.typ == FBT_INT then 0 - Limit(w) <= 2 * v.n < Limit(w)
    else if IsInline(v.typ) then 0 <= v.n < Limit(w)
    else 0 <= pos - v.n < Limit(w)
  }

  lemma InlineFits(buf: seq<byte>, v: Value, tree: Tree, pos: nat, b: BitWidth)
    requires Holds(buf, v, tree) && IsInline(v.typ) && v.minWidth <= b
    ensures Fits(v, pos, ByteWidth(b))
  {
    match tree
    case Int(i) => WidthIIsLeast(i, b);
    case UInt(u) => WidthUIsLeast(u, b);
    case _ =>
  }

  lemma PackedTypeUnpacks(pos: int, parentWidth: nat, b: BitWidth, typ: nat)
    ensures Unpacked(pos, parentWidth, PackedType(b, typ)) == Reference(pos, parentWidth, ByteWidth(b), typ)
  {}

  lemma UnsignedReadsBack(buf: seq<byte>, x: nat, w: nat)
    requires IsByteWidth(w) && x < Limit(w)
    ensures InBuffer(buf + ToBytes(x, w), |buf|, w) && ReadUInt(buf + ToBytes(x, w), |buf|, w) == x
  {
    var bytes := ToBytes(x, w);
    assert (buf + bytes)[|buf|..|buf| + w] == bytes;
    UnsignedRoundTrip(x, w);
    DivisionIsUnique(x, Limit(w), 0, x);
  }

  lemma SignedReadsBack(buf: seq<byte>, i: int, w: nat)
    requires IsByteWidth(w) && 0 - Limit(w) <= 2 * i < Limit(w)
    ensures InBuffer(buf + ToBytes(i, w), |buf|, w) && ReadInt(buf + ToBytes(i, w), |buf|, w) == i
  {
    var bytes := ToBytes(i, w);
    assert (buf + bytes)[|buf|..|buf| + w] == bytes;
    SignedRoundTrip(i, w);
  }

  /** A value that fits reads back as its tree. */
  lemma AnyReadsBack(buf: seq<byte>, v: Value, tree: Tree, b: BitWidth)
    requires Holds(buf, v, tree) && 0 <= v.typ <= FBT_MAX_TYPE && Fits(v, |buf|, ByteWidth(b))
    ensures Reads(buf + v.AnyBytes(|buf|, ByteWidth(b)), Unpacked(|buf|, ByteWidth(b), v.StoredPackedType(b)), tree)
  {
    hide PackedType;
    hide Stored;
    hide FromBytes;
    hide ToBytes;
    hide Limit;
    hide ByteWidth;
    var w := ByteWidth(b);
    HoldsShape(buf, v, tree);
    PackedTypeUnpacks(|buf|, w, v.StoredWidth(b), v.typ);
    match tree
    case Int(i) => SignedReadsBack(buf, i, w);
    case Bool(x) => UnsignedReadsBack(buf, v.n, w);
    case UInt(u) => UnsignedReadsBack(buf, u, w);
    case Null =>
    case _ =>
      UnsignedReadsBack(buf, |buf| - v.n, w);
      HoldsStays(buf, v.AnyBytes(|buf|, w), v, tree);
  }
}
