/** Building a FlexBuffer bottom-up: the `Builder` of `flexbuffers.h`.

    The ghost field `meaning` holds, for every value on the stack, the tree it stands for. The pools, ordered
    sets in the source, are searched here one entry after the other. */
module FlexBuilder {
  import opened Bytes

  import opened FlexScalars

  import opened LittleEndian

  import opened FlexReader

  import opened FlexValues

  import opened FlexSorting

  const NUL: seq<byte> := [0]

  /** The largest size of a byte vector. */
  const MAX_SIZE := TWO_63

  /** The stack position of element `k` of a vector; maps take every second value. */
  function At(start: nat, step: nat, k: nat): nat {
    if step == 2 then start + 2 * k else start + k
  }

  /** Going from `start` in steps visits exactly `n` values of a stack of `size`. */
  predicate Spans(size: nat, start: nat, step: nat, n: nat) {
    (step == 1 || step == 2) && size <= At(start, step, n) && (n > 0 ==> At(start, step, n - 1) < size)
  }

  function Picked<T>(stack: seq<T>, start: nat, step: nat, n: nat): (r: seq<T>)
    requires Spans(|stack|, start, step, n)
    ensures |r| == n
  {
    seq(n, k requires 0 <= k < n => stack[At(start, step, k)])
  }

  /** Every value of the list stands for the tree beside it. */
  ghost predicate AllHold(buf: seq<byte>, vs: seq<Value>, trees: seq<Tree>) {
    |vs| == |trees| && forall k :: 0 <= k < |vs| ==> Holds(buf, vs[k], trees[k])
  }

  lemma AllHoldStays(buf: seq<byte>, more: seq<byte>, vs: seq<Value>, trees: seq<Tree>)
    requires AllHold(buf, vs, trees)
    ensures AllHold(buf + more, vs, trees)
  {
    forall k | 0 <= k < |vs|
      ensures Holds(buf + more, vs[k], trees[k])
    {
      HoldsStays(buf, more, vs[k], trees[k]);
    }
  }

  /** The values that are positions denote positions in a buffer of this size. */
  predicate Located(vs: seq<Value>, size: nat) {
    forall k :: 0 <= k < |vs| && !IsInline(vs[k].typ) ==> 0 <= vs[k].n <= size
  }

  lemma HeldIsLocated(buf: seq<byte>, vs: seq<Value>, trees: seq<Tree>)
    requires AllHold(buf, vs, trees)
    ensures Located(vs, |buf|)
  {
    forall k | 0 <= k < |vs|
      ensures !IsInline(vs[k].typ) ==> 0 <= vs[k].n <= |buf|
    {
      HoldsShape(buf, vs[k], trees[k]);
    }
  }

  /** A map vector is preceded by the offset and the width of its keys, every vector by its size. */
  function PrefixOf(keys: Option<Value>): nat { if keys.Some? then 3 else 1 }

  function LeastWidth(size: nat, force: BitWidth, keys: Option<Value>, vs: seq<Value>, prefix: nat, step: nat,
                      k: nat): BitWidth
    requires Located(vs, size) && (keys.Some? ==> Located([keys.value], size)) && k <= |vs|
  {
    if k == 0 then
      assert keys.Some? ==> keys.value == [keys.value][0];
      Max(Max(force, WidthU(|vs|)), if keys.Some? then keys.value.ElemWidth(size, 0) else 0)
    else Max(LeastWidth(size, force, keys, vs, prefix, step, k - 1), vs[k - 1].ElemWidth(size, At(prefix, step, k - 1)))
  }

  /** The width the builder computes is the least that suffices. */
  lemma {:induction false} LeastWidthSuffices(size: nat, force: BitWidth, keys: Option<Value>, vs: seq<Value>,
                                              prefix: nat, step: nat, k: nat, c: BitWidth)
    requires Located(vs, size) && (keys.Some? ==> Located([keys.value], size)) && k <= |vs|
    ensures LeastWidth(size, force, keys, vs, prefix, step, k) <= c <==>
      && force <= c && WidthU(|vs|) <= c
      && (keys.Some? ==> keys.value == [keys.value][0] && keys.value.ElemWidth(size, 0) <= c)
      && forall j :: 0 <= j < k ==> vs[j].ElemWidth(size, At(prefix, step, j)) <= c
  {
    assert keys.Some? ==> keys.value == [keys.value][0];
    if k > 0 {
      LeastWidthSuffices(size, force, keys, vs, prefix, step, k - 1, c);
    }
  }

  /** Width `b` is enough for a vector of `n` elements written after `size` bytes: for its size field, for the
      offset to its keys, and for every element at the index the builder assumes. */
  predicate WidthSuffices(size: nat, force: BitWidth, n: nat, keys: Option<Value>, vs: seq<Value>, prefix: nat,
                          step: nat, b: BitWidth)
    requires Located(vs, size) && (keys.Some? ==> Located([keys.value], size))
  {
    assert keys.Some? ==> keys.value == [keys.value][0];
    && force <= b && WidthU(n) <= b && (keys.Some? ==> keys.value.ElemWidth(size, 0) <= b)
    && forall k :: 0 <= k < |vs| ==> vs[k].ElemWidth(size, At(prefix, step, k)) <= b
  }

  /** The first elements of a vector at `pos` read back as trees once their types are known. */
  ghost predicate ElementsRead(buf: seq<byte>, pos: nat, b: BitWidth, vs: seq<Value>, trees: seq<Tree>, k: nat) {
    && k <= |vs| == |trees|
    && (forall j :: 0 <= j < k ==> 0 <= vs[j].typ <= FBT_MAX_TYPE)
    && (forall j :: 0 <= j < k ==>
        Reads(buf, Unpacked(pos + j * ByteWidth(b), ByteWidth(b), vs[j].StoredPackedType(b)), trees[j]))
  }

  lemma ElementsReadStays(buf: seq<byte>, more: seq<byte>, pos: nat, b: BitWidth, vs: seq<Value>, trees: seq<Tree>,
                          k: nat)
    requires ElementsRead(buf, pos, b, vs, trees, k)
    ensures ElementsRead(buf + more, pos, b, vs, trees, k)
  {
    forall j | 0 <= j < k
      ensures Reads(buf + more, Unpacked(pos + j * ByteWidth(b), ByteWidth(b), vs[j].StoredPackedType(b)), trees[j])
    {
      ReadsStays(buf, more, Unpacked(pos + j * ByteWidth(b), ByteWidth(b), vs[j].StoredPackedType(b)), trees[j]);
    }
  }

  /** Element `k`, at its place in a vector of sufficient width, fits. */
  lemma ElementFits(size: nat, buf: seq<byte>, pos: nat, b: BitWidth, force: BitWidth, keys: Option<Value>,
                    vs: seq<Value>, trees: seq<Tree>,
                    prefix: nat, step: nat, k: nat)
    requires size <= |buf| && AllHold(buf[..size], vs, trees) && k < |vs| && (step == 1 || step == 2)
    requires Located(vs, size) && (keys.Some? ==> Located([keys.value], size))
    requires WidthSuffices(size, force, |vs|, keys, vs, prefix, step, b)
    requires size + 8 * (2 * |vs| + prefix + 1) < TWO_64
    requires pos == size + PaddingBytes(size, ByteWidth(b)) + prefix * ByteWidth(b)
    ensures Fits(vs[k], pos + k * ByteWidth(b), ByteWidth(b))
  {
    var v, w := vs[k], ByteWidth(b);
    assert Holds(buf[..size], v, trees[k]);
    HoldsShape(buf[..size], v, trees[k]);
    assert v.ElemWidth(size, At(prefix, step, k)) <= b;
    if IsInline(v.typ) {
      InlineFits(buf[..size], v, trees[k], pos + k * w, b);
    } else {
      OffsetStillFits(size, At(prefix, step, k), prefix + k, v.n, b);
      assert (prefix + k) * w == prefix * w + k * w;
    }
  }

  /** Writing element `k` behind the others. */
  lemma ElementIsWritten(buf: seq<byte>, pos: nat, b: BitWidth, vs: seq<Value>, trees: seq<Tree>, k: nat)
    requires AllHold(buf, vs, trees) && k < |vs| && ElementsRead(buf, pos, b, vs, trees, k)
    requires |buf| == pos + k * ByteWidth(b) && Fits(vs[k], |buf|, ByteWidth(b))
    ensures var after := buf + vs[k].AnyBytes(|buf|, ByteWidth(b));
      |after| == pos + (k + 1) * ByteWidth(b) && ElementsRead(after, pos, b, vs, trees, k + 1)
  {
    hide Reads;
    hide Fits;
    hide Stored;
    hide ToBytes;
    var bytes := vs[k].AnyBytes(|buf|, ByteWidth(b));
    ElementsReadStays(buf, bytes, pos, b, vs, trees, k);
    HoldsShape(buf, vs[k], trees[k]);
    AnyReadsBack(buf, vs[k], trees[k], b);
    assert (k + 1) * ByteWidth(b) == k * ByteWidth(b) + ByteWidth(b);
  }

  lemma NoElementsYet(held: seq<byte>, buf: seq<byte>, pos: nat, b: BitWidth, vs: seq<Value>, trees: seq<Tree>)
    requires AllHold(held, vs, trees)
    ensures ElementsRead(buf, pos, b, vs, trees, 0)
  {}

  /** The next element can be written, and is then readable like the others. */
  lemma NextElement(size: nat, buf: seq<byte>, pos: nat, b: BitWidth, force: BitWidth, keys: Option<Value>,
                    vs: seq<Value>, trees: seq<Tree>,
                    step: nat, k: nat)
    requires size <= |buf| && AllHold(buf[..size], vs, trees) && k < |vs| && (step == 1 || step == 2)
    requires Located(vs, size) && (keys.Some? ==> Located([keys.value], size))
    requires WidthSuffices(size, force, |vs|, keys, vs, PrefixOf(keys), step, b)
    requires size + 8 * (2 * |vs| + 8) < TWO_64
    requires pos == size + PaddingBytes(size, ByteWidth(b)) + PrefixOf(keys) * ByteWidth(b)
    requires |buf| == pos + k * ByteWidth(b) && ElementsRead(buf, pos, b, vs, trees, k)
    ensures 0 <= vs[k].typ && vs[k].typ != FBT_FLOAT && (!IsInline(vs[k].typ) ==> vs[k].n >= 0)
      && Fits(vs[k], |buf|, ByteWidth(b))
    ensures var after := buf + vs[k].AnyBytes(|buf|, ByteWidth(b));
      |after| == pos + (k + 1) * ByteWidth(b) && ElementsRead(after, pos, b, vs, trees, k + 1)
  {
    hide Fits;
    hide ElementsRead;
    hide WidthSuffices;
    hide Stored;
    assert buf == buf[..size] + buf[size..];
    AllHoldStays(buf[..size], buf[size..], vs, trees);
    ElementFits(size, buf, pos, b, force, keys, vs, trees, PrefixOf(keys), step, k);
    HoldsShape(buf, vs[k], trees[k]);
    ElementIsWritten(buf, pos, b, vs, trees, k);
  }

  /** The type table behind the elements of a vector. */
  predicate TypesAre(buf: seq<byte>, at: nat, b: BitWidth, vs: seq<Value>, k: nat) {
    k <= |vs| && at + k <= |buf| && forall j :: 0 <= j < k ==>
        0 <= vs[j].typ <= FBT_MAX_TYPE && buf[at + j] == vs[j].StoredPackedType(b)
  }

  lemma ElementsAreReadable(buf: seq<byte>, pos: nat, b: BitWidth, vs: seq<Value>, trees: seq<Tree>)
    requires ElementsRead(buf, pos, b, vs, trees, |vs|) && TypesAre(buf, pos + |vs| * ByteWidth(b), b, vs, |vs|)
    ensures forall k :: 0 <= k < |vs| ==> ElementReads(buf, pos, ByteWidth(b), |vs|, k, trees[k])
  {
    forall k | 0 <= k < |vs|
      ensures ElementReads(buf, pos, ByteWidth(b), |vs|, k, trees[k])
    {
      assert buf[pos + |vs| * ByteWidth(b) + k] == vs[k].StoredPackedType(b);
    }
  }

  /** The value is a vector of the keys of the entries. */
  predicate AreKeys(buf: seq<byte>, v: Value, entries: seq<Entry>) {
    v.typ == FBT_VECTOR_KEY && 0 <= v.n <= |buf| && KeysAt(buf, v.n, ByteWidth(v.minWidth), entries)
  }

  /** What precedes the elements of a vector at `pos`. */
  function PrefixBytes(pos: nat, n: nat, keys: Option<Value>, w: nat): (r: seq<byte>)
    ensures |r| == PrefixOf(keys) * w
  {
    if keys.Some? then ToBytes(pos - keys.value.n, w) + ToBytes(ByteWidth(keys.value.minWidth), w) + ToBytes(n, w)
    else ToBytes(n, w)
  }

  lemma PrefixIsKept(before: seq<byte>, v: Value, entries: seq<Entry>, offset: seq<byte>, width: seq<byte>,
                     n: seq<byte>, w: nat)
    requires IsByteWidth(w) && AreKeys(before, v, entries) && |offset| == |width| == |n| == w
    requires Indirect(before + offset, |before|, w) == v.n
    requires ReadUInt(before + offset + width, |before| + w, w) == ByteWidth(v.minWidth)
    ensures HasKeys(before + offset + width + n, |before| + 3 * w, w, entries)
  {
    hide FromBytes;
    hide KeysAt;
    var buf := before + offset + width + n;
    assert buf == before + (offset + width + n) == before + offset + (width + n);
    KeysStay(before, offset + width + n, v.n, ByteWidth(v.minWidth), entries);
    ReadStays(before + offset, width + n, |before|, w);
    ReadStays(before + offset + width, n, |before| + w, w);
  }

  /** Offset, width and size, written one after the other, lead to the keys. */
  lemma PrefixLeadsToKeys(before: seq<byte>, v: Value, entries: seq<Entry>, n: nat, w: nat)
    requires IsByteWidth(w) && AreKeys(before, v, entries) && |before| - v.n < Limit(w) && n < Limit(w)
    ensures var buf := before + PrefixBytes(|before|, n, Some(v), w);
      HasKeys(buf, |before| + 3 * w, w, entries) && SizedAt(buf, |before| + 3 * w, w, n)
  {
    hide ToBytes;
    hide FromBytes;
    hide HasKeys;
    hide KeysAt;
    var offset, width, size := ToBytes(|before| - v.n, w), ToBytes(ByteWidth(v.minWidth), w), ToBytes(n, w);
    UnsignedReadsBack(before, |before| - v.n, w);
    UnsignedReadsBack(before + offset, ByteWidth(v.minWidth), w);
    UnsignedReadsBack(before + offset + width, n, w);
    PrefixIsKept(before, v, entries, offset, width, size, w);
    assert before + PrefixBytes(|before|, n, Some(v), w) == before + offset + width + size;
  }

  /** The size field of any vector. */
  lemma PrefixHoldsSize(before: seq<byte>, n: nat, w: nat)
    requires IsByteWidth(w) && n < Limit(w)
    ensures SizedAt(before + PrefixBytes(|before|, n, None, w), |before| + w, w, n)
  {
    UnsignedReadsBack(before, n, w);
  }

  /** The chosen width suffices, so the offset to the keys and the size fit. */
  lemma WidthIsSufficient(buf: seq<byte>, force: BitWidth, keys: Option<Value>, vs: seq<Value>, step: nat, n: nat,
                          b: BitWidth)
    requires Located(vs, |buf|) && (keys.Some? ==> Located([keys.value], |buf|) && !IsInline(keys.value.typ))
      && |vs| == n && |buf| + 16 * n + 64 < MAX_SIZE
    requires b == LeastWidth(|buf|, force, keys, vs, PrefixOf(keys), step, n)
    ensures WidthSuffices(|buf|, force, n, keys, vs, PrefixOf(keys), step, b) && n < Limit(ByteWidth(b))
    ensures keys.Some? ==>
      && keys.value == [keys.value][0]
      && |buf| + PaddingBytes(|buf|, ByteWidth(b)) - keys.value.n < Limit(ByteWidth(b))
  {
    LeastWidthSuffices(|buf|, force, keys, vs, PrefixOf(keys), step, n, b);
    WidthUIsLeast(n, b);
    if keys.Some? {
      assert keys.value == [keys.value][0];
      OffsetStillFits(|buf|, 0, 0, keys.value.n, b);
    }
  }

  lemma HeldTypes(buf: seq<byte>, vs: seq<Value>, trees: seq<Tree>)
    requires AllHold(buf, vs, trees)
    ensures forall k :: 0 <= k < |vs| ==> 0 <= vs[k].typ <= FBT_MAX_TYPE
  {
    forall k | 0 <= k < |vs|
      ensures 0 <= vs[k].typ <= FBT_MAX_TYPE
    {
      HoldsShape(buf, vs[k], trees[k]);
    }
  }

  /** The prefix of a vector, written behind the padding, is in order. */
  lemma PrefixIsRead(before: seq<byte>, aligned: seq<byte>, keys: Option<Value>, entries: seq<Entry>, n: nat, w: nat)
    requires IsByteWidth(w) && before <= aligned && n < Limit(w)
    requires keys.Some? ==> AreKeys(before, keys.value, entries) && |aligned| - keys.value.n < Limit(w)
    ensures var buf := aligned + PrefixBytes(|aligned|, n, keys, w);
      SizedAt(buf, |buf|, w, n) && (keys.Some? ==> HasKeys(buf, |buf|, w, entries))
  {
    hide FromBytes;
    hide ToBytes;
    hide HasKeys;
    hide SizedAt;
    hide KeysAt;
    hide Limit;
    if keys.Some? {
      var v := keys.value;
      assert aligned == before + aligned[|before|..];
      KeysStay(before, aligned[|before|..], v.n, ByteWidth(v.minWidth), entries);
      PrefixLeadsToKeys(aligned, v, entries, n, w);
    } else {
      PrefixHoldsSize(aligned, n, w);
    }
  }

  lemma VectorIsStored(prefixed: seq<byte>, written: seq<byte>, buf: seq<byte>, b: BitWidth, vs: seq<Value>,
                       trees: seq<Tree>)
    requires SizedAt(prefixed, |prefixed|, ByteWidth(b), |vs|) && prefixed <= written <= buf
    requires |written| == |prefixed| + |vs| * ByteWidth(b) && ElementsRead(written, |prefixed|, b, vs, trees, |vs|)
    requires TypesAre(buf, |written|, b, vs, |vs|)
    ensures Holds(buf, Value(|prefixed|, FBT_VECTOR, b), Vector(trees))
  {
    assert buf == prefixed + buf[|prefixed|..] == written + buf[|written|..];
    SizedStays(prefixed, buf[|prefixed|..], |prefixed|, ByteWidth(b), |vs|);
    ElementsReadStays(written, buf[|written|..], |prefixed|, b, vs, trees, |vs|);
    ElementsAreReadable(buf, |prefixed|, b, vs, trees);
  }

  lemma MapIsStored(prefixed: seq<byte>, written: seq<byte>, buf: seq<byte>, b: BitWidth, vs: seq<Value>,
                    entries: seq<Entry>)
    requires SizedAt(prefixed, |prefixed|, ByteWidth(b), |vs|) && HasKeys(prefixed, |prefixed|, ByteWidth(b), entries)
    requires prefixed <= written <= buf
    requires |written| == |prefixed| + |vs| * ByteWidth(b)
      && ElementsRead(written, |prefixed|, b, vs, ValuesOf(entries), |vs|)
    requires TypesAre(buf, |written|, b, vs, |vs|)
    ensures Holds(buf, Value(|prefixed|, FBT_MAP, b), Map(entries))
  {
    assert buf == prefixed + buf[|prefixed|..] == written + buf[|written|..];
    SizedStays(prefixed, buf[|prefixed|..], |prefixed|, ByteWidth(b), |vs|);
    HasKeysStays(prefixed, buf[|prefixed|..], |prefixed|, ByteWidth(b), entries);
    ElementsReadStays(written, buf[|written|..], |prefixed|, b, vs, ValuesOf(entries), |vs|);
    ElementsAreReadable(buf, |prefixed|, b, vs, ValuesOf(entries));
    assert forall k :: 0 <= k < |entries| ==> ValuesOf(entries)[k] == entries[k].value;
  }

  lemma KeyVectorIsStored(prefixed: seq<byte>, buf: seq<byte>, b: BitWidth, vs: seq<Value>, entries: seq<Entry>)
    requires SizedAt(prefixed, |prefixed|, ByteWidth(b), |vs|) && prefixed <= buf
    requires ElementsRead(buf, |prefixed|, b, vs, KeysOf(entries), |vs|)
    ensures AreKeys(buf, Value(|prefixed|, FBT_VECTOR_KEY, b), entries)
  {
    assert buf == prefixed + buf[|prefixed|..];
    SizedStays(prefixed, buf[|prefixed|..], |prefixed|, ByteWidth(b), |vs|);
    forall k | 0 <= k < |entries|
      ensures KeyElementIs(buf, |prefixed|, ByteWidth(b), k, entries[k].key)
    {
      assert KeysOf(entries)[k] == Key(entries[k].key);
      KeyIsRead(buf, Unpacked(|prefixed| + k * ByteWidth(b), ByteWidth(b), vs[k].StoredPackedType(b)), entries[k].key);
    }
  }

  function KeysOf(entries: seq<Entry>): (r: seq<Tree>)
    ensures |r| == |entries|
  {
    seq(|entries|, k requires 0 <= k < |entries| => Key(entries[k].key))
  }

  function ValuesOf(entries: seq<Entry>): (r: seq<Tree>)
    ensures |r| == |entries|
  {
    seq(|entries|, k requires 0 <= k < |entries| => entries[k].value)
  }

  /** Every position in the key pool is that of a string that ends with NUL. */
  ghost predicate KeysPooled(buf: seq<byte>, pool: seq<nat>) {
    forall j :: 0 <= j < |pool| ==> KeyAt(buf, pool[j], CString(buf, pool[j]))
  }

  /** Every entry of the string pool is the position and the length of a string. */
  ghost predicate StringsPooled(buf: seq<byte>, pool: seq<(nat, nat)>) {
    forall j :: 0 <= j < |pool| ==> StringPooled(buf, pool[j].0, pool[j].1)
  }

  ghost predicate StringPooled(buf: seq<byte>, pos: nat, n: nat) {
    pos + n < |buf| && IsUInt64(n) && Stored(buf, pos, ByteWidth(WidthU(n)), FBT_STRING, String(buf[pos..pos + n]))
  }

  lemma PoolsStay(buf: seq<byte>, more: seq<byte>, keys: seq<nat>, strings: seq<(nat, nat)>)
    requires KeysPooled(buf, keys) && StringsPooled(buf, strings)
    ensures KeysPooled(buf + more, keys) && StringsPooled(buf + more, strings)
  {
    forall j | 0 <= j < |keys|
      ensures KeyAt(buf + more, keys[j], CString(buf + more, keys[j]))
    {
      KeyStays(buf, more, keys[j], CString(buf, keys[j]));
      KeyIsCString(buf + more, keys[j], CString(buf, keys[j]));
    }
    forall j | 0 <= j < |strings|
      ensures StringPooled(buf + more, strings[j].0, strings[j].1)
    {
      var pos, n := strings[j].0, strings[j].1;
      assert StringPooled(buf, pos, n);
      StoredStays(buf, more, pos, ByteWidth(WidthU(n)), FBT_STRING, String(buf[pos..pos + n]));
      assert (buf + more)[pos..pos + n] == buf[pos..pos + n];
    }
  }

  /** What a reader of NUL-terminated strings sees of a string. */
  function UpToNul(s: seq<byte>): (r: seq<byte>)
    ensures 0 !in r && |r| <= |s| && r == s[..|r|] && (|r| < |s| ==> s[|r|] == 0)
  {
    if s == [] || s[0] == 0 then [] else [s[0]] + UpToNul(s[1..])
  }

  lemma NewKey(before: seq<byte>, str: seq<byte>)
    ensures var buf := before + str + NUL;
      && KeyAt(buf, |before|, UpToNul(str)) && CString(buf, |before|) == UpToNul(str)
      && Holds(buf, Value(|before|, FBT_KEY, 0), Key(UpToNul(str)))
  {
    var buf, k := before + str + NUL, UpToNul(str);
    assert buf[|before|..|before| + |k|] == str[..|k|];
    KeyIsCString(buf, |before|, k);
  }

  /** A pooled key that equals the new one can stand for it, also when the new one is removed. */
  lemma FoundKey(before: seq<byte>, str: seq<byte>, pool: seq<nat>, pos: nat)
    requires KeysPooled(before, pool) && pos in pool
    requires CString(before + str + NUL, pos) == CString(before + str + NUL, |before|)
    ensures Holds(before, Value(pos, FBT_KEY, 0), Key(UpToNul(str)))
  {
    NewKey(before, str);
    hide CString;
    hide UpToNul;
    hide KeyAt;
    hide Holds;
    var k := CString(before, pos);
    assert KeyAt(before, pos, k);
    assert before + str + NUL == before + (str + NUL);
    KeyStays(before, str + NUL, pos, k);
    KeyIsCString(before + str + NUL, pos, k);
    HoldsKey(before, pos, k);
  }

  lemma HoldsKey(buf: seq<byte>, pos: nat, k: seq<byte>)
    requires KeyAt(buf, pos, k)
    ensures Holds(buf, Value(pos, FBT_KEY, 0), Key(k))
  {}

  lemma SizeIsStored(aligned: seq<byte>, n: nat, w: nat, rest: seq<byte>)
    requires IsByteWidth(w) && n < Limit(w)
    ensures var buf := aligned + ToBytes(n, w) + rest; SizedAt(buf, |aligned| + w, w, n) && buf[|aligned| + w..] == rest
  {
    UnsignedReadsBack(aligned, n, w);
    ReadStays(aligned + ToBytes(n, w), rest, |aligned|, w);
  }

  lemma HoldsBlob(buf: seq<byte>, pos: nat, b: BitWidth, data: seq<byte>)
    requires pos + |data| <= |buf| && SizedAt(buf, pos, ByteWidth(b), |data|) && buf[pos..pos + |data|] == data
    ensures Holds(buf, Value(pos, FBT_BLOB, b), Blob(data))
  {}

  lemma HoldsString(buf: seq<byte>, pos: nat, b: BitWidth, s: seq<byte>)
    requires pos + |s| < |buf| && SizedAt(buf, pos, ByteWidth(b), |s|) && buf[pos..pos + |s|] == s
      && buf[pos + |s|] == 0
    ensures Holds(buf, Value(pos, FBT_STRING, b), String(s))
  {}

  /** Size and bytes, written one after the other, are a blob. */
  lemma BlobIsStored(aligned: seq<byte>, data: seq<byte>, b: BitWidth)
    requires IsUInt64(|data|) && b == WidthU(|data|)
    ensures Holds(aligned + ToBytes(|data|, ByteWidth(b)) + data, Value(|aligned| + ByteWidth(b), FBT_BLOB, b),
      Blob(data))
  {
    hide Holds;
    hide Stored;
    hide SizedAt;
    hide ToBytes;
    WidthUIsLeast(|data|, b);
    SizeIsStored(aligned, |data|, ByteWidth(b), data);
    HoldsBlob(aligned + ToBytes(|data|, ByteWidth(b)) + data, |aligned| + ByteWidth(b), b, data);
  }

  /** Size, bytes and a NUL are a string. */
  lemma StringIsStored(aligned: seq<byte>, s: seq<byte>, b: BitWidth)
    requires IsUInt64(|s|) && b == WidthU(|s|)
    ensures Holds(aligned + ToBytes(|s|, ByteWidth(b)) + s + NUL, Value(|aligned| + ByteWidth(b), FBT_STRING, b),
      String(s))
  {
    hide Holds;
    hide Stored;
    hide SizedAt;
    hide ToBytes;
    WidthUIsLeast(|s|, b);
    SizeIsStored(aligned, |s|, ByteWidth(b), s + NUL);
    var buf, pos := aligned + ToBytes(|s|, ByteWidth(b)) + (s + NUL), |aligned| + ByteWidth(b);
    assert aligned + ToBytes(|s|, ByteWidth(b)) + s + NUL == buf;
    assert buf[pos..pos + |s|] == buf[pos..][..|s|] == s;
    assert buf[pos + |s|] == buf[pos..][|s|] == 0;
    HoldsString(buf, pos, b, s);
  }

  lemma AllHoldWith(buf: seq<byte>, vs: seq<Value>, trees: seq<Tree>, v: Value, tree: Tree)
    requires AllHold(buf, vs, trees) && Holds(buf, v, tree)
    ensures AllHold(buf, vs + [v], trees + [tree])
  {}

  lemma StringEndsWithNul(buf: seq<byte>, stack: seq<Value>, meaning: seq<Tree>, pos: nat, s: seq<byte>)
    requires AllHold(buf, stack, meaning) && |stack| > 0 && IsUInt64(|s|)
    requires stack[|stack| - 1] == Value(pos, FBT_STRING, WidthU(|s|)) && meaning[|stack| - 1] == String(s)
    ensures pos + |s| < |buf| && buf[pos..pos + |s| + 1] == s + NUL
  {
    assert Holds(buf, stack[|stack| - 1], meaning[|stack| - 1]);
    assert buf[pos..pos + |s| + 1] == buf[pos..pos + |s|] + [buf[pos + |s|]];
  }

  lemma NewString(buf: seq<byte>, stack: seq<Value>, meaning: seq<Tree>, pool: seq<(nat, nat)>, pos: nat, s: seq<byte>)
    requires AllHold(buf, stack, meaning) && |stack| > 0 && IsUInt64(|s|) && StringsPooled(buf, pool)
    requires stack[|stack| - 1] == Value(pos, FBT_STRING, WidthU(|s|)) && meaning[|stack| - 1] == String(s)
    ensures StringsPooled(buf, pool + [(pos, |s|)])
  {
    StringEndsWithNul(buf, stack, meaning, pos, s);
    assert Holds(buf, stack[|stack| - 1], meaning[|stack| - 1]);
    assert buf[pos..pos + |s|] == buf[pos..pos + |s| + 1][..|s|] == s;
    assert StringPooled(buf, pos, |s|);
  }

  lemma FoundString(before: seq<byte>, buf: seq<byte>, pool: seq<(nat, nat)>, pos: nat, s: seq<byte>)
    requires before <= buf && StringsPooled(before, pool) && (pos, |s|) in pool && pos + |s| < |buf|
      && buf[pos..pos + |s| + 1] == s + NUL
    ensures Holds(before, Value(pos, FBT_STRING, WidthU(|s|)), String(s))
  {
    assert StringPooled(before, pos, |s|);
    assert before[pos..pos + |s|] == buf[pos..pos + |s| + 1][..|s|] == s;
  }

  // ----- maps on the stack -----

  /** From `start` on, every second tree is a key. */
  predicate KeysAlternate(meaning: seq<Tree>, start: nat) {
    start <= |meaning| && (|meaning| - start) % 2 == 0 && forall k :: 0 <= k < (|meaning| - start) / 2 ==>
        meaning[start + 2 * k].Key?
  }

  function EntriesOf(meaning: seq<Tree>, start: nat): (r: seq<Entry>)
    requires KeysAlternate(meaning, start)
    ensures |r| == (|meaning| - start) / 2
  {
    seq((|meaning| - start) / 2,
        k requires 0 <= k < (|meaning| - start) / 2 => Entry(meaning[start + 2 * k].k, meaning[start + 2 * k + 1]))
  }

  lemma PairsAreHeld(buf: seq<byte>, stack: seq<Value>, meaning: seq<Tree>, start: nat, dict: seq<(Value, Value)>)
    requires AllHold(buf, stack, meaning) && KeysAlternate(meaning, start) && |dict| == (|meaning| - start) / 2
    requires forall k :: 0 <= k < |dict| ==> dict[k] == (stack[start + 2 * k], stack[start + 2 * k + 1])
    ensures PairsHold(buf, dict, EntriesOf(meaning, start))
  {
    hide Holds;
    var entries := EntriesOf(meaning, start);
    forall k | 0 <= k < |dict|
      ensures PairHolds(buf, dict[k], entries[k])
    {
      assert Holds(buf, stack[start + 2 * k], meaning[start + 2 * k]);
      assert Holds(buf, stack[start + 2 * k + 1], meaning[start + 2 * k + 1]);
    }
  }

  lemma SizeOfPairs(buf: seq<byte>, dict: seq<(Value, Value)>, entries: seq<Entry>)
    requires PairsHold(buf, dict, entries)
    ensures |dict| == |entries|
  {}

  lemma KeysArePicked(buf: seq<byte>, stack: seq<Value>, start: nat, dict: seq<(Value, Value)>, entries: seq<Entry>)
    requires PairsHold(buf, dict, entries) && |stack| == start + 2 * |dict|
    requires forall k :: 0 <= k < |dict| ==> stack[start + 2 * k] == dict[k].0 && stack[start + 2 * k + 1] == dict[k].1
    ensures Spans(|stack|, start, 2, |dict|) && AllHold(buf, Picked(stack, start, 2, |dict|), KeysOf(entries))
    ensures Spans(|stack|, start + 1, 2, |dict|) && AllHold(buf, Picked(stack, start + 1, 2, |dict|), ValuesOf(entries))
  {
    hide Holds;
    forall k | 0 <= k < |dict|
      ensures Holds(buf, Picked(stack, start, 2, |dict|)[k], KeysOf(entries)[k])
      ensures Holds(buf, Picked(stack, start + 1, 2, |dict|)[k], ValuesOf(entries)[k])
    {
      assert PairHolds(buf, dict[k], entries[k]);
    }
  }

  lemma KeysAreLocated(buf: seq<byte>, v: Value, entries: seq<Entry>)
    requires AreKeys(buf, v, entries)
    ensures 0 <= v.n <= |buf|
  {}

  lemma AllHoldBelow(buf: seq<byte>, vs: seq<Value>, trees: seq<Tree>, n: nat)
    requires AllHold(buf, vs, trees) && n <= |vs|
    ensures AllHold(buf, vs[..n], trees[..n])
  {}

  // ----- the root -----

  /** The root fits the width chosen for it; it is as wide as it needs, so its stored width does not depend on a
      parent. */
  lemma RootFits(before: seq<byte>, aligned: seq<byte>, v: Value, tree: Tree, b: BitWidth)
    requires Holds(before, v, tree) && before <= aligned
      && |aligned| == |before| + PaddingBytes(|before|, ByteWidth(b)) && |before| + 64 < MAX_SIZE
    requires 0 <= v.typ < FBT_MAX_TYPE && (!IsInline(v.typ) ==> v.n >= 0) && b == v.ElemWidth(|before|, 0)
    ensures Holds(aligned, v, tree) && Fits(v, |aligned|, ByteWidth(b))
    ensures v.StoredPackedType(0) == v.StoredPackedType(b)
  {
    HoldsShape(before, v, tree);
    assert aligned == before + aligned[|before|..];
    HoldsStays(before, aligned[|before|..], v, tree);
    if IsInline(v.typ) {
      InlineFits(before, v, tree, |aligned|, b);
    } else {
      OffsetFits(|before|, 0, v.n);
    }
  }

  lemma RootIsWritten(aligned: seq<byte>, v: Value, tree: Tree, b: BitWidth, w: byte, packed: byte)
    requires Holds(aligned, v, tree) && 0 <= v.typ <= FBT_MAX_TYPE && w == ByteWidth(b) && Fits(v, |aligned|, w)
    requires packed == v.StoredPackedType(b)
    ensures var buf := aligned + v.AnyBytes(|aligned|, w) + Single(packed) + Single(w); Reads(buf, GetRoot(buf), tree)
  {
    hide Holds;
    hide Reads;
    hide Fits;
    hide Value.AnyBytes;
    hide Value.StoredPackedType;
    AnyReadsBack(aligned, v, tree, b);
    RootIsFound(aligned + v.AnyBytes(|aligned|, w), |aligned|, w, packed, tree);
  }

  lemma RootIsFound(written: seq<byte>, pos: nat, w: byte, packed: byte, tree: Tree)
    requires |written| == pos + w && Reads(written, Unpacked(pos, w, packed), tree)
    ensures var buf := written + Single(packed) + Single(w); Reads(buf, GetRoot(buf), tree)
  {
    var buf := written + Single(packed) + Single(w);
    assert buf == written + (Single(packed) + Single(w));
    assert GetRoot(buf) == Unpacked(pos, w, packed);
    ReadsStays(written, Single(packed) + Single(w), Unpacked(pos, w, packed), tree);
  }

  class Builder {
    var buf: seq<byte>
    var stack: seq<Value>
    var finished: bool
    var hasDuplicateKeys: bool
    var keyPool: seq<nat>
    var stringPool: seq<(nat, nat)>
    var forceMinBitWidth: BitWidth
    const shareKeys: bool
    const shareStrings: bool
    ghost var meaning: seq<Tree>

    constructor (shareKeys: bool, shareStrings: bool)
      ensures buf == [] && stack == [] && meaning == [] && !finished && !hasDuplicateKeys
      ensures keyPool == [] && stringPool == [] && forceMinBitWidth == 0
      ensures this.shareKeys == shareKeys && this.shareStrings == shareStrings
    {
      buf, stack, finished, hasDuplicateKeys := [], [], false, false;
      keyPool, stringPool, forceMinBitWidth := [], [], 0;
      this.shareKeys, this.shareStrings := shareKeys, shareStrings;
      meaning := [];
    }

    method ForceMinimumBitWidth(b: BitWidth)
      modifies `forceMinBitWidth
      ensures forceMinBitWidth == b
    {
      forceMinBitWidth := b;
    }

    // ----- appending bytes -----

    method Align(b: BitWidth) returns (w: nat)
      modifies `buf
      ensures w == ByteWidth(b) && |buf| == |old(buf)| + PaddingBytes(|old(buf)|, w)
      ensures old(buf) <= buf
    {
      w := ByteWidth(b);
      buf := buf + seq(PaddingBytes(|buf|, w), _ => 0);
    }

    method Write(x: int, w: nat)
      modifies `buf
      ensures buf == old(buf) + ToBytes(x, w)
    {
      buf := buf + ToBytes(x, w);
    }

    /** The distance to an earlier object; that it fits is what the source asserts here. */
    method WriteOffset(o: nat, w: nat)
      requires IsByteWidth(w) && o <= |buf| && |buf| - o < Limit(w)
      modifies `buf
      ensures buf == old(buf) + ToBytes(|old(buf)| - o, w)
    {
      var reloff := |buf| - o;
      assert w == 8 || reloff < Limit(w);
      Write(reloff, w);
    }

    method WriteAny(v: Value, w: nat)
      requires v.typ != FBT_FLOAT && 0 <= v.typ && (!IsInline(v.typ) ==> v.n >= 0) && Fits(v, |buf|, w)
      modifies `buf
      ensures buf == old(buf) + v.AnyBytes(|old(buf)|, w)
    {
      hide ToBytes;
      hide Limit;
      if v.typ == FBT_NULL || v.typ == FBT_INT || v.typ == FBT_BOOL || v.typ == FBT_UINT {
        Write(v.n, w);
      } else {
        WriteOffset(v.n, w);
      }
    }

    // ----- vectors -----

    /** Tests each width in turn; one of them always fits. */
    static method ElemWidth(v: Value, size: nat, index: nat) returns (b: BitWidth)
      requires !IsInline(v.typ) ==> 0 <= v.n <= size
      requires size + 8 + 8 * index < TWO_64
      ensures b == v.ElemWidth(size, index)
    {
      if IsInline(v.typ) {
        return v.minWidth;
      }
      hide OffsetWidth;
      hide TooFarBelow;
      hide PaddingBytes;
      NothingIsTooFar(size, index, v.n);
      var w := 1;
      while w <= 8
        invariant IsByteWidth(w)
        invariant TooFarBelow(size, index, v.n, w)
        decreases 16 - w
      {
        WidthTest(size, index, v.n, w);
        var offset := size + PaddingBytes(size, w) + index * w - v.n;
        var bits := WidthU(offset);
        if ByteWidth(bits) == w {
          return bits;
        }
        w := w * 2;
      }
      assert false;
    }

    /** The least width for a vector over the stack from `start`. */
    method VectorWidth(start: nat, n: nat, step: nat, keys: Option<Value>, ghost vs: seq<Value>) returns (b: BitWidth)
      requires Spans(|stack|, start, step, n) && vs == Picked(stack, start, step, n)
      requires Located(vs, |buf|) && (keys.Some? ==> Located([keys.value], |buf|))
      requires |buf| + 8 * (2 * n + 8) < TWO_64
      ensures b == LeastWidth(|buf|, forceMinBitWidth, keys, vs, PrefixOf(keys), step, n)
    {
      hide OffsetWidth;
      var size := |buf|;
      b := Max(forceMinBitWidth, WidthU(n));
      var prefix := 1;
      if keys.Some? {
        assert keys.value == [keys.value][0];
        var keysWidth := ElemWidth(keys.value, size, 0);
        b := Max(b, keysWidth);
        prefix := 3;
      }
      var i := start;
      ghost var k := 0;
      while i < |stack|
        invariant 0 <= k <= n && i == At(start, step, k)
        invariant b == LeastWidth(size, forceMinBitWidth, keys, vs, prefix, step, k)
        decreases |stack| - i
      {
        assert stack[i] == vs[k];
        var elemWidth := ElemWidth(stack[i], size, i - start + prefix);
        b := Max(b, elemWidth);
        i := i + step;
        k := k + 1;
      }
    }

    /** Writes what precedes the elements: for a map the offset and the width of its keys, then the size. */
    method WritePrefix(n: nat, keys: Option<Value>, w: nat)
      requires IsByteWidth(w) && (keys.Some? ==> 0 <= keys.value.n <= |buf| && |buf| - keys.value.n < Limit(w))
      modifies `buf
      ensures buf == old(buf) + PrefixBytes(|old(buf)|, n, keys, w)
    {
      if keys.Some? {
        WriteOffset(keys.value.n, w);
        Write(ByteWidth(keys.value.minWidth), w);
      }
      Write(n, w);
    }

    method WriteElements(start: nat, n: nat, step: nat, b: BitWidth, w: nat, keys: Option<Value>, ghost size: nat,
                         ghost vs: seq<Value>, ghost trees: seq<Tree>)
      requires w == ByteWidth(b) && Spans(|stack|, start, step, n) && vs == Picked(stack, start, step, n)
      requires size <= |buf| && AllHold(buf[..size], vs, trees) && Located(vs, size)
        && (keys.Some? ==> Located([keys.value], size))
      requires WidthSuffices(size, forceMinBitWidth, n, keys, vs, PrefixOf(keys), step, b)
      requires size + 8 * (2 * n + 8) < TWO_64
      requires |buf| == size + PaddingBytes(size, w) + PrefixOf(keys) * w
      modifies `buf
      ensures |buf| == |old(buf)| + n * w && old(buf) <= buf
      ensures ElementsRead(buf, |old(buf)|, b, vs, trees, n)
    {
      hide AllHold;
      hide Located;
      hide WidthSuffices;
      hide ElementsRead;
      hide PaddingBytes;
      hide Fits;
      hide Value.AnyBytes;
      ghost var before, s := buf, forceMinBitWidth;
      ghost var pos := |buf|;
      NoElementsYet(buf[..size], buf, pos, b, vs, trees);
      var i := start;
      ghost var k := 0;
      while i < |stack|
        invariant 0 <= k <= n && i == At(start, step, k)
        invariant before <= buf && |buf| == pos + k * w
        invariant ElementsRead(buf, pos, b, vs, trees, k)
        decreases |stack| - i
      {
        assert stack[i] == vs[k];
        assert buf[..size] == before[..size];
        NextElement(size, buf, pos, b, s, keys, vs, trees, step, k);
        WriteAny(stack[i], w);
        i := i + step;
        k := k + 1;
      }
    }

    method WriteTypes(start: nat, n: nat, step: nat, b: BitWidth, ghost vs: seq<Value>)
      requires Spans(|stack|, start, step, n) && vs == Picked(stack, start, step, n)
      requires forall k :: 0 <= k < n ==> 0 <= vs[k].typ <= FBT_MAX_TYPE
      modifies `buf
      ensures |buf| == |old(buf)| + n && old(buf) <= buf && TypesAre(buf, |old(buf)|, b, vs, n)
    {
      ghost var before := buf;
      var i := start;
      ghost var k := 0;
      while i < |stack|
        invariant 0 <= k <= n && i == At(start, step, k)
        invariant before <= buf && |buf| == |before| + k && TypesAre(buf, |before|, b, vs, k)
        decreases |stack| - i
      {
        assert stack[i] == vs[k];
        buf := buf + Single(stack[i].StoredPackedType(b));
        i := i + step;
        k := k + 1;
      }
    }

    /** Writes the values from `start`, every `step`-th of them, as a vector: of keys when `typed`, of the values
        of a map when there are `keys`. The trees are what the values stand for, the entries those of the map. */
    method CreateVector(start: nat, n: nat, step: nat, typed: bool, keys: Option<Value>, ghost trees: seq<Tree>,
                        ghost entries: seq<Entry>)
      returns (r: Value)
      requires Spans(|stack|, start, step, n) && AllHold(buf, Picked(stack, start, step, n), trees)
      requires typed ==> keys == None && KeysOf(entries) == trees
      requires keys.Some? ==> !typed && AreKeys(buf, keys.value, entries) && ValuesOf(entries) == trees
      requires |buf| + 16 * n + 64 < MAX_SIZE
      modifies `buf
      ensures old(buf) <= buf && |buf| <= |old(buf)| + 9 * n + 31
      ensures typed ==> AreKeys(buf, r, entries)
      ensures !typed ==> Holds(buf, r, if keys.Some? then Map(entries) else Vector(trees))
    {
      hide Holds;
      hide WidthSuffices;
      hide LeastWidth;
      hide ElementsRead;
      hide TypesAre;
      hide SizedAt;
      hide HasKeys;
      hide KeysAt;
      hide AllHold;
      hide PaddingBytes;
      hide Limit;
      hide Picked;
      hide PrefixBytes;
      ghost var before, size := buf, |buf|;
      ghost var vs := Picked(stack, start, step, n);
      HeldIsLocated(buf, vs, trees);
      assert keys.Some? ==> Located([keys.value], size);
      var b := VectorWidth(start, n, step, keys, vs);
      WidthIsSufficient(before, forceMinBitWidth, keys, vs, step, n, b);
      var w := Align(b);
      PaddingAligns(size, w);
      assert n * w <= n * 8;
      ghost var aligned := buf;
      WritePrefix(n, keys, w);
      var pos := |buf|;
      ghost var prefixed := buf;
      PrefixIsRead(before, aligned, keys, entries, n, w);
      assert prefixed[..size] == before;
      WriteElements(start, n, step, b, w, keys, size, vs, trees);
      ghost var written := buf;
      if !typed {
        HeldTypes(before, vs, trees);
        WriteTypes(start, n, step, b, vs);
        if keys.Some? {
          MapIsStored(prefixed, written, buf, b, vs, entries);
        } else {
          VectorIsStored(prefixed, written, buf, b, vs, trees);
        }
      } else {
        KeyVectorIsStored(prefixed, written, b, vs, entries);
      }
      r := Value(pos, if keys.Some? then FBT_MAP else if typed then FBT_VECTOR_KEY else FBT_VECTOR, b);
    }

    // ----- the invariant -----

    /** The stack stands for `meaning`, and the pools list strings in the buffer. */
    ghost predicate Valid()
      reads this
    {
      AllHold(buf, stack, meaning) && KeysPooled(buf, keyPool) && StringsPooled(buf, stringPool)
    }

    lemma SameDepth()
      requires Valid()
      ensures |stack| == |meaning|
    {}

    // ----- scalars -----

    method Push(v: Value, ghost tree: Tree)
      requires Valid() && Holds(buf, v, tree)
      modifies `stack, `meaning
      ensures Valid() && stack == old(stack) + [v] && meaning == old(meaning) + [tree]
    {
      stack := stack + [v];
      meaning := meaning + [tree];
    }

    method AddNull()
      requires Valid()
      modifies `stack, `meaning
      ensures Valid() && meaning == old(meaning) + [Null]
    {
      Push(Value(0, FBT_NULL, 0), Null);
    }

    method AddBool(b: bool)
      requires Valid()
      modifies `stack, `meaning
      ensures Valid() && meaning == old(meaning) + [Bool(b)]
    {
      Push(Value(if b then 1 else 0, FBT_BOOL, 0), Bool(b));
    }

    method AddInt(i: int)
      requires Valid() && IsInt64(i)
      modifies `stack, `meaning
      ensures Valid() && meaning == old(meaning) + [Int(i)]
    {
      Push(Value(i, FBT_INT, WidthI(i)), Int(i));
    }

    method AddUInt(u: nat)
      requires Valid() && IsUInt64(u)
      modifies `stack, `meaning
      ensures Valid() && meaning == old(meaning) + [UInt(u)]
    {
      Push(Value(u, FBT_UINT, WidthU(u)), UInt(u));
    }

    /** A scalar outside its parent, so that the parent need not be as wide. */
    method PushIndirect(x: int, typ: int, b: BitWidth, ghost tree: Tree)
      requires Valid()
      requires (typ == FBT_INDIRECT_INT && tree == IndirectInt(x) && IsInt64(x) && b == WidthI(x)) ||
               (typ == FBT_INDIRECT_UINT && x >= 0 && tree == IndirectUInt(x) && IsUInt64(x) && b == WidthU(x))
      modifies `buf, `stack, `meaning
      ensures Valid() && meaning == old(meaning) + [tree] && old(buf) <= buf && |buf| <= |old(buf)| + 15
    {
      ghost var before := buf;
      var w := Align(b);
      var pos := |buf|;
      Write(x, w);
      PaddingAligns(|before|, w);
      Extend(before);
      if typ == FBT_INDIRECT_INT {
        WidthIIsLeast(x, b);
        SignedReadsBack(buf[..pos], x, w);
        assert buf == buf[..pos] + ToBytes(x, w);
      } else {
        WidthUIsLeast(x, b);
        UnsignedReadsBack(buf[..pos], x, w);
        assert buf == buf[..pos] + ToBytes(x, w);
      }
      Push(Value(pos, typ, b), tree);
    }

    /** More bytes leave the invariant in place. */
    lemma Extend(before: seq<byte>)
      requires AllHold(before, stack, meaning) && KeysPooled(before, keyPool) && StringsPooled(before, stringPool)
        && before <= buf
      ensures Valid()
    {
      assert buf == before + buf[|before|..];
      AllHoldStays(before, buf[|before|..], stack, meaning);
      PoolsStay(before, buf[|before|..], keyPool, stringPool);
    }

    // ----- keys, strings and blobs -----

    /** A key goes into the buffer with its NUL, unless sharing finds it there already. */
    method AddKey(str: seq<byte>) returns (pos: nat)
      requires Valid()
      modifies `buf, `stack, `meaning, `keyPool
      ensures Valid() && meaning == old(meaning) + [Key(UpToNul(str))] && old(buf) <= buf
        && |buf| <= |old(buf)| + |str| + 1
    {
      ghost var before := buf;
      pos := |buf|;
      buf := buf + str + NUL;
      NewKey(before, str);
      Extend(before);
      hide AllHold;
      hide StringsPooled;
      hide KeyAt;
      hide CString;
      hide UpToNul;
      if shareKeys {
        var found := FindKey(pos);
        if found.Some? {
          FoundKey(before, str, keyPool, found.value);
          buf := buf[..pos];
          assert buf == before;
          pos := found.value;
        } else {
          keyPool := keyPool + [pos];
        }
      }
      Push(Value(pos, FBT_KEY, 0), Key(UpToNul(str)));
    }

    /** The pooled string that equals the one at `pos`, comparing as `strcmp` does. */
    method FindKey(pos: nat) returns (found: Option<nat>)
      requires pos <= |buf|
      ensures found.Some? ==> found.value in keyPool && CString(buf, found.value) == CString(buf, pos)
      ensures found.None? ==> forall j :: 0 <= j < |keyPool| ==> CString(buf, keyPool[j]) != CString(buf, pos)
    {
      for j := 0 to |keyPool|
        invariant forall l :: 0 <= l < j ==> CString(buf, keyPool[l]) != CString(buf, pos)
      {
        CompareIsZero(CString(buf, keyPool[j]), CString(buf, pos));
        if Compare(CString(buf, keyPool[j]), CString(buf, pos)) == 0 {
          return Some(keyPool[j]);
        }
      }
      return None;
    }

    /** Size, bytes and, for a string, a NUL. */
    method CreateBlob(data: seq<byte>, trailing: bool, ghost tree: Tree) returns (pos: nat)
      requires Valid() && IsUInt64(|data|) && tree == (if trailing then String(data) else Blob(data))
      modifies `buf, `stack, `meaning
      ensures Valid() && meaning == old(meaning) + [tree] && stack[..|stack| - 1] == old(stack)
      ensures old(buf) <= buf && |buf| <= |old(buf)| + |data| + 16
      ensures |stack| > 0 && stack[|stack| - 1] == Value(pos, if trailing then FBT_STRING else FBT_BLOB, WidthU(|data|))
      ensures pos + |data| <= |buf| && buf[pos..pos + |data|] == data && (trailing ==> pos + |data| + 1 == |buf|)
    {
      ghost var before := buf;
      var b := WidthU(|data|);
      var w := Align(b);
      ghost var aligned := buf;
      Write(|data|, w);
      pos := |buf|;
      buf := buf + data;
      if trailing {
        buf := buf + NUL;
        StringIsStored(aligned, data, b);
      } else {
        BlobIsStored(aligned, data, b);
      }
      assert buf[pos..pos + |data|] == data;
      PaddingAligns(|before|, w);
      Extend(before);
      Push(Value(pos, if trailing then FBT_STRING else FBT_BLOB, b), tree);
    }

    method AddBlob(data: seq<byte>) returns (pos: nat)
      requires Valid() && IsUInt64(|data|)
      modifies `buf, `stack, `meaning
      ensures Valid() && meaning == old(meaning) + [Blob(data)] && old(buf) <= buf && |buf| <= |old(buf)| + |data| + 16
    {
      pos := CreateBlob(data, false, Blob(data));
    }

    /** A string with its size, unless sharing finds it there already. */
    method AddString(s: seq<byte>) returns (pos: nat)
      requires Valid() && IsUInt64(|s|)
      modifies `buf, `stack, `meaning, `stringPool
      ensures Valid() && meaning == old(meaning) + [String(s)] && old(buf) <= buf && |buf| <= |old(buf)| + |s| + 16
    {
      ghost var before, was, meant := buf, stack, meaning;
      var resetTo := |buf|;
      pos := CreateBlob(s, true, String(s));
      if shareStrings {
        hide AllHold;
        hide StringsPooled;
        hide KeysPooled;
        hide WidthU;
        assert stack == was + [Value(pos, FBT_STRING, WidthU(|s|))];
        pos := ShareString(resetTo, pos, s, before, was, meant);
      }
    }

    /** Replaces the string just written by an equal one in the pool, or adds it to the pool. */
    method ShareString(resetTo: nat, newPos: nat, s: seq<byte>, ghost before: seq<byte>, ghost was: seq<Value>,
                       ghost meant: seq<Tree>)
      returns (pos: nat)
      requires Valid() && before <= buf && resetTo == |before| && AllHold(before, was, meant)
      requires KeysPooled(before, keyPool) && StringsPooled(before, stringPool)
      requires IsUInt64(|s|) && stack == was + [Value(newPos, FBT_STRING, WidthU(|s|))]
        && meaning == meant + [String(s)]
      modifies `buf, `stack, `stringPool
      ensures Valid() && (buf == before || buf == old(buf))
    {
      hide WidthU;
      hide Holds;
      hide Stored;
      assert |stack| == |meaning| == |was| + 1;
      StringEndsWithNul(buf, stack, meaning, newPos, s);
      var found := FindString(newPos, |s|);
      hide AllHold;
      hide StringsPooled;
      hide KeysPooled;
      if found.Some? {
        pos := found.value;
        FoundString(before, buf, stringPool, pos, s);
        AllHoldWith(before, was, meant, Value(pos, FBT_STRING, WidthU(|s|)), String(s));
        buf := buf[..resetTo];
        stack := stack[|stack| - 1 := stack[|stack| - 1].(n := pos)];
        assert buf == before && stack == was + [Value(pos, FBT_STRING, WidthU(|s|))];
      } else {
        pos := newPos;
        NewString(buf, stack, meaning, stringPool, pos, s);
        stringPool := stringPool + [(pos, |s|)];
      }
    }

    /** The pooled string of the same length and bytes, NUL included. */
    method FindString(pos: nat, n: nat) returns (found: Option<nat>)
      requires pos + n < |buf| && StringsPooled(buf, stringPool)
      ensures found.Some? ==>
        && (found.value, n) in stringPool && found.value + n < |buf|
        && buf[found.value..found.value + n + 1] == buf[pos..pos + n + 1]
      ensures found.None? ==> forall j :: 0 <= j < |stringPool| && stringPool[j].1 == n ==>
        stringPool[j].0 + n < |buf| && buf[stringPool[j].0..stringPool[j].0 + n + 1] != buf[pos..pos + n + 1]
    {
      hide Stored;
      for j := 0 to |stringPool|
        invariant forall l :: 0 <= l < j && stringPool[l].1 == n ==>
          stringPool[l].0 + n < |buf| && buf[stringPool[l].0..stringPool[l].0 + n + 1] != buf[pos..pos + n + 1]
      {
        assert StringPooled(buf, stringPool[j].0, stringPool[j].1);
        if stringPool[j].1 == n && buf[stringPool[j].0..stringPool[j].0 + n + 1] == buf[pos..pos + n + 1] {
          return Some(stringPool[j].0);
        }
      }
      return None;
    }

    // ----- vectors and maps -----

    /** Replaces the values from `start` by one vector of them. */
    method EndVector(start: nat) returns (pos: nat)
      requires Valid() && start <= |stack| && |buf| + 16 * (|stack| - start) + 64 < MAX_SIZE
      modifies `buf, `stack, `meaning
      ensures Valid() && meaning == old(meaning)[..start] + [Vector(old(meaning)[start..])]
      ensures old(buf) <= buf && |buf| <= |old(buf)| + 9 * (|old(stack)| - start) + 31
    {
      ghost var before := buf;
      var n := |stack| - start;
      assert Picked(stack, start, 1, n) == stack[start..];
      var vec := CreateVector(start, n, 1, false, None, meaning[start..], []);
      Extend(before);
      stack := stack[..start];
      meaning := meaning[..start];
      Push(vec, Vector(old(meaning)[start..]));
      pos := vec.n;
    }

    /** The keys and values from `start` as pairs. */
    method Pairs(start: nat, n: nat) returns (dict: seq<(Value, Value)>)
      requires |stack| == start + 2 * n
      ensures |dict| == n && forall k :: 0 <= k < n ==> dict[k] == (stack[start + 2 * k], stack[start + 2 * k + 1])
    {
      dict := [];
      for k := 0 to n
        invariant |dict| == k && forall j :: 0 <= j < k ==> dict[j] == (stack[start + 2 * j], stack[start + 2 * j + 1])
      {
        dict := dict + [(stack[start + 2 * k], stack[start + 2 * k + 1])];
      }
    }

    /** Puts pairs back on the stack from `start`. */
    method PutPairs(start: nat, dict: seq<(Value, Value)>)
      requires start <= |stack|
      modifies `stack
      ensures |stack| == start + 2 * |dict| && stack[..start] == old(stack)[..start]
      ensures forall k :: 0 <= k < |dict| ==> stack[start + 2 * k] == dict[k].0 && stack[start + 2 * k + 1] == dict[k].1
    {
      stack := stack[..start];
      for k := 0 to |dict|
        invariant |stack| == start + 2 * k && stack[..start] == old(stack)[..start]
        invariant forall j :: 0 <= j < k ==> stack[start + 2 * j] == dict[j].0 && stack[start + 2 * j + 1] == dict[j].1
      {
        stack := stack + [dict[k].0, dict[k].1];
      }
    }

    /** Sorts the keys and values from `start` by key. */
    method SortMap(start: nat, n: nat)
      requires AllHold(buf, stack, meaning) && KeysAlternate(meaning, start) && |stack| == start + 2 * n
      modifies `stack, `hasDuplicateKeys
      ensures |stack| == |old(stack)| && stack[..start] == old(stack)[..start]
      ensures hasDuplicateKeys <==> old(hasDuplicateKeys) || !DistinctKeys(EntriesOf(meaning, start))
      ensures Spans(|stack|, start, 2, n)
        && AllHold(buf, Picked(stack, start, 2, n), KeysOf(SortEntries(EntriesOf(meaning, start))))
      ensures Spans(|stack|, start + 1, 2, n)
        && AllHold(buf, Picked(stack, start + 1, 2, n), ValuesOf(SortEntries(EntriesOf(meaning, start))))
    {
      ghost var entries := EntriesOf(meaning, start);
      var dict := Pairs(start, n);
      PairsAreHeld(buf, stack, meaning, start, dict);
      hide AllHold;
      hide PairsHold;
      hide EntriesOf;
      hide DistinctKeys;
      var sorted, duplicates := SortPairs(buf, dict, entries);
      if duplicates {
        hasDuplicateKeys := true;
      }
      SizeOfPairs(buf, sorted, SortEntries(entries));
      PutPairs(start, sorted);
      KeysArePicked(buf, stack, start, sorted, SortEntries(entries));
    }

    /** Writes the keys from `start` and then the values beside them. */
    method CreateMap(start: nat, n: nat, ghost entries: seq<Entry>) returns (vec: Value)
      requires Spans(|stack|, start, 2, n) && AllHold(buf, Picked(stack, start, 2, n), KeysOf(entries))
      requires Spans(|stack|, start + 1, 2, n) && AllHold(buf, Picked(stack, start + 1, 2, n), ValuesOf(entries))
      requires |buf| + 32 * n + 160 < MAX_SIZE
      modifies `buf
      ensures old(buf) <= buf && |buf| <= |old(buf)| + 18 * n + 62 && Holds(buf, vec, Map(entries))
    {
      hide AllHold;
      hide AreKeys;
      hide Holds;
      hide Picked;
      hide Spans;
      ghost var before := buf;
      var keys := CreateVector(start, n, 2, true, None, KeysOf(entries), entries);
      KeysAreLocated(buf, keys, entries);
      assert buf == before + buf[|before|..];
      AllHoldStays(before, buf[|before|..], Picked(stack, start + 1, 2, n), ValuesOf(entries));
      vec := CreateVector(start + 1, n, 2, false, Some(keys), ValuesOf(entries), entries);
    }

    /** Replaces the keys and values from `start` by one map, sorted by key. */
    method EndMap(start: nat) returns (pos: nat)
      requires Valid() && start <= |stack| && (|stack| - start) % 2 == 0 && KeysAlternate(meaning, start)
      requires |buf| + 32 * (|stack| - start) + 160 < MAX_SIZE
      modifies `buf, `stack, `meaning, `hasDuplicateKeys
      ensures Valid() && meaning == old(meaning)[..start] + [Map(SortEntries(EntriesOf(old(meaning), start)))]
      ensures hasDuplicateKeys <==> old(hasDuplicateKeys) || !DistinctKeys(EntriesOf(old(meaning), start))
      ensures old(buf) <= buf && |buf| <= |old(buf)| + 9 * (|old(stack)| - start) + 62
    {
      ghost var before, was, meant := buf, stack, meaning;
      ghost var ordered := SortEntries(EntriesOf(meaning, start));
      var n := (|stack| - start) / 2;
      AllHoldBelow(before, was, meant, start);
      hide AllHold;
      hide KeysPooled;
      hide StringsPooled;
      hide AreKeys;
      hide Holds;
      hide EntriesOf;
      hide DistinctKeys;
      hide SortEntries;
      hide KeysAlternate;
      hide Picked;
      hide Spans;
      SortMap(start, n);
      var vec := CreateMap(start, n, ordered);
      stack := stack[..start];
      meaning := meaning[..start];
      Extend(before);
      Push(vec, Map(ordered));
      pos := vec.n;
    }

    // ----- the end -----

    method WriteRoot(v: Value, w: byte)
      requires v.typ != FBT_FLOAT && 0 <= v.typ <= FBT_MAX_TYPE && (!IsInline(v.typ) ==> v.n >= 0) && Fits(v, |buf|, w)
      modifies `buf
      ensures buf == old(buf) + v.AnyBytes(|old(buf)|, w) + Single(v.StoredPackedType(0)) + Single(w)
    {
      WriteAny(v, w);
      buf := buf + Single(v.StoredPackedType(0));
      buf := buf + Single(w);
    }

    lemma RootIsHeld()
      requires Valid() && |stack| == 1
      ensures |meaning| == 1 && Holds(buf, stack[0], meaning[0])
      ensures var v := stack[0];
        v.typ != FBT_FLOAT && 0 <= v.typ < FBT_MAX_TYPE && (!IsInline(v.typ) ==> 0 <= v.n <= |buf|)
    {
      assert Holds(buf, stack[0], meaning[0]);
      HoldsShape(buf, stack[0], meaning[0]);
    }

    /** Writes the root value, its type and its width. */
    method Finish()
      requires Valid() && |stack| == 1 && |buf| + 64 < MAX_SIZE
      modifies `buf, `finished
      ensures finished && |buf| >= 2 && |meaning| == 1 && Reads(buf, GetRoot(buf), meaning[0])
    {
      hide Valid;
      hide Holds;
      hide Reads;
      hide Fits;
      hide Value.AnyBytes;
      hide Value.StoredPackedType;
      hide GetRoot;
      hide OffsetWidth;
      hide PaddingBytes;
      RootIsHeld();
      var v := stack[0];
      ghost var before, tree := buf, meaning[0];
      var b := ElemWidth(v, |buf|, 0);
      var w := Align(b);
      RootFits(before, buf, v, tree, b);
      hide Value.ElemWidth;
      RootIsWritten(buf, v, tree, b, w, v.StoredPackedType(0));
      WriteRoot(v, w);
      finished := true;
    }
  }
}
