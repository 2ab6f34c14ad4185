/** Scalars of variable width in FlexBuffers: `flexbuffers.h`, `base.h`.

    A bit width is kept as its exponent, as in the source: 0, 1, 2 and 3 stand for 1, 2, 4 and 8 bytes. */
module FlexScalars {
  import opened Bytes
  import opened LittleEndian

  type BitWidth = x: int | 0 <= x <= 3

  function ByteWidth(b: BitWidth): nat {
    if b == 0 then 1 else if b == 1 then 2 else if b == 2 then 4 else 8
  }

  predicate IsUInt64(u: int) { 0 <= u < TWO_64 }

  predicate IsInt64(i: int) { -TWO_63 <= i < TWO_63 }

  // ----- the width of a value -----

  function WidthU(u: nat): BitWidth {
    if u < 0x100 then 0 else if u < 0x1_0000 then 1 else if u < 0x1_0000_0000 then 2 else 3
  }

  /** Shifts the sign bit out; a negative value is measured by its complement. */
  function WidthI(i: int): BitWidth {
    var u := (2 * i) % TWO_64;
    WidthU(if i >= 0 then u else TWO_64 - 1 - u)
  }

  lemma WidthUIsLeast(u: nat, b: BitWidth)
    requires IsUInt64(u)
    ensures WidthU(u) <= b <==> u < Limit(ByteWidth(b))
  {}

  /** The least width in which the value has a two's complement form. */
  lemma WidthIIsLeast(i: int, b: BitWidth)
    requires IsInt64(i)
    ensures WidthI(i) <= b <==> 0 - Limit(ByteWidth(b)) <= 2 * i < Limit(ByteWidth(b))
  {}

  // ----- the width of an offset -----

  /** The offset from the element with number `index`, in a vector of width `w` that starts after `size` bytes, back
      to `target`. */
  function OffsetAt(size: nat, index: nat, target: nat, w: nat): int
    requires IsByteWidth(w)
  {
    size + PaddingBytes(size, w) + index * w - target
  }

  /** The least width in which the offset fits when the vector has that width. */
  function OffsetWidth(size: nat, index: nat, target: nat): BitWidth {
    if OffsetAt(size, index, target, 1) < Limit(1) then 0
    else if OffsetAt(size, index, target, 2) < Limit(2) then 1
    else if OffsetAt(size, index, target, 4) < Limit(4) then 2
    else 3
  }

  /** An element later in a wider vector is no nearer to its target. */
  lemma OffsetGrows(size: nat, index: nat, target: nat, w: nat)
    requires IsByteWidth(w) && w < 8
    ensures OffsetAt(size, index, target, w) <= OffsetAt(size, index, target, 2 * w)
  {
    PaddingGrows(size, w);
    assert index * (2 * w) == 2 * (index * w);
  }

  lemma OffsetFits(size: nat, index: nat, target: nat)
    requires target <= size && size + 8 + 8 * index < TWO_64
    ensures 0 <= OffsetAt(size, index, target,
      ByteWidth(OffsetWidth(size, index, target))) < Limit(ByteWidth(OffsetWidth(size, index, target)))
  {
    assert OffsetAt(size, index, target, 8) < Limit(8);
  }

  /** The offset does not fit in any width below `w`. */
  predicate TooFarBelow(size: nat, index: nat, target: nat, w: nat) {
    && (w > 1 ==> OffsetAt(size, index, target, 1) >= Limit(1))
    && (w > 2 ==> OffsetAt(size, index, target, 2) >= Limit(2))
    && (w > 4 ==> OffsetAt(size, index, target, 4) >= Limit(4))
  }

  lemma NothingIsTooFar(size: nat, index: nat, target: nat)
    ensures TooFarBelow(size, index, target, 1)
  {}

  /** Testing for equality of widths is enough: an offset too far for one width is not near enough for a lesser one at
      the next. */
  lemma WidthTest(size: nat, index: nat, target: nat, w: nat)
    requires IsByteWidth(w) && target <= size && size + 8 + 8 * index < TWO_64 && TooFarBelow(size, index, target, w)
    ensures OffsetAt(size, index, target, w) >= 0
    ensures ByteWidth(WidthU(OffsetAt(size, index, target, w))) == w ==>
      WidthU(OffsetAt(size, index, target, w)) == OffsetWidth(size, index, target)
    ensures ByteWidth(WidthU(OffsetAt(size, index, target, w))) != w ==>
      w < 8 && TooFarBelow(size, index, target, 2 * w)
  {
    assert index * w >= 0;
    if w > 1 {
      OffsetGrows(size, index, target, w / 2);
    }
    OffsetFits(size, index, target);
    hide OffsetAt;
  }

  lemma WidenedOffset(size: nat, index: nat, target: nat, w: nat, v: nat)
    requires IsByteWidth(w) && IsByteWidth(v) && w < v && target <= size
    requires OffsetAt(size, index, target, w) < Limit(w)
    ensures OffsetAt(size, index, target, v) < Limit(v)
  {
    var m := v / w;
    assert v == m * w && m <= 8;
    var d := size - target;
    assert index * v == m * (index * w);
    assert d + index * w < Limit(w);
    assert d + m * (index * w) <= m * (d + index * w);
  }

  /** The width chosen for an offset stays sufficient when the vector is written with more bytes for each
      element, and when the element comes earlier than was assumed. */
  lemma OffsetStillFits(size: nat, assumed: nat, index: nat, target: nat, chosen: BitWidth)
    requires index <= assumed && target <= size && size + 8 + 8 * assumed < TWO_64
    requires OffsetWidth(size, assumed, target) <= chosen
    ensures 0 <= OffsetAt(size, index, target, ByteWidth(chosen)) < Limit(ByteWidth(chosen))
  {
    var w, v := ByteWidth(OffsetWidth(size, assumed, target)), ByteWidth(chosen);
    OffsetFits(size, assumed, target);
    if w < v {
      WidenedOffset(size, assumed, target, w, v);
    }
    assert index * v <= assumed * v;
  }
}
