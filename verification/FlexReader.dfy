/** Reading a FlexBuffer: the accessors of `flexbuffers.h`, and what it means that they yield a given tree. */
module FlexReader {
  import opened Bytes
  import opened FlexScalars
  import opened LittleEndian

  const FBT_NULL := 0
  const FBT_INT := 1
  const FBT_UINT := 2
  const FBT_FLOAT := 3
  const FBT_KEY := 4
  const FBT_STRING := 5
  const FBT_INDIRECT_INT := 6
  const FBT_INDIRECT_UINT := 7
  const FBT_MAP := 9
  const FBT_VECTOR := 10
  const FBT_VECTOR_KEY := 14
  const FBT_BLOB := 25
  const FBT_BOOL := 26
  const FBT_MAX_TYPE := 37

  predicate IsInline(t: int) { t <= FBT_FLOAT || t == FBT_BOOL }

  /** The values under consideration. A map is an association list. */
  datatype Tree =
    | Null
    | Bool(b: bool)
    | Int(i: int)
    | UInt(u: nat)
    | IndirectInt(i: int)
    | IndirectUInt(u: nat)
    | Key(k: seq<byte>)
    | String(s: seq<byte>)
    | Blob(s: seq<byte>)
    | Vector(elements: seq<Tree>)
    | Map(entries: seq<Entry>)

  datatype Entry = Entry(key: seq<byte>, value: Tree)

  /** Where a relative offset at `pos` leads. */
  function Indirect(buf: seq<byte>, pos: int, w: nat): int
    requires IsByteWidth(w) && InBuffer(buf, pos, w)
  {
    pos - ReadUInt(buf, pos, w)
  }

  // ----- references -----

  datatype Reference = Reference(pos: int, parentWidth: nat, byteWidth: nat, typ: int)

  function PackedType(b: BitWidth, typ: nat): nat { b + 4 * typ }

  /** A reference from a packed type byte: the low two bits are the width, the others the type. */
  function Unpacked(pos: int, parentWidth: nat, packed: nat): Reference {
    Reference(pos, parentWidth, ByteWidth(packed % 4), packed / 4)
  }

  /** The bytes at `pos` up to a terminating NUL are `k`. */
  predicate KeyAt(buf: seq<byte>, pos: int, k: seq<byte>) {
    InBuffer(buf, pos, |k| + 1) && buf[pos..pos + |k|] == k && 0 !in k && buf[pos + |k|] == 0
  }

  /** An object at `pos` with `n` in the size field before it. */
  predicate SizedAt(buf: seq<byte>, pos: int, w: nat, n: nat) {
    IsByteWidth(w) && InBuffer(buf, pos - w, w) && ReadUInt(buf, pos - w, w) == n
  }

  /** Element `i` of an untyped vector at `pos`: its type is in the table behind the elements. */
  function Element(buf: seq<byte>, pos: int, w: nat, size: nat, i: nat): Reference
    requires InBuffer(buf, pos + size * w + i, 1)
  {
    Unpacked(pos + i * w, w, buf[pos + size * w + i])
  }

  /** The keys of a map: where they are and how wide their offsets are, stored before the size of the values. */
  function KeysWidth(buf: seq<byte>, pos: int, w: nat): nat
    requires IsByteWidth(w) && InBuffer(buf, pos - 2 * w, w)
  {
    ReadUInt(buf, pos - 2 * w, w)
  }

  function KeysPos(buf: seq<byte>, pos: int, w: nat): int
    requires IsByteWidth(w) && InBuffer(buf, pos - 3 * w, w)
  {
    Indirect(buf, pos - 3 * w, w)
  }

  /** Element `i` of a vector of keys at `pos` is `k`. */
  predicate KeyElementIs(buf: seq<byte>, pos: int, w: nat, i: nat, k: seq<byte>) {
    IsByteWidth(w) && InBuffer(buf, pos + i * w, w) && KeyAt(buf, Indirect(buf, pos + i * w, w), k)
  }

  /** A typed vector at `pos` holds the keys of the entries. */
  predicate KeysAt(buf: seq<byte>, pos: int, w: nat, entries: seq<Entry>) {
    SizedAt(buf, pos, w, |entries|) && forall i :: 0 <= i < |entries| ==> KeyElementIs(buf, pos, w, i, entries[i].key)
  }

  /** Before the size of the values of a map at `pos` are the offset and the width of its keys. */
  predicate HasKeys(buf: seq<byte>, pos: int, w: nat, entries: seq<Entry>) {
    && IsByteWidth(w) && InBuffer(buf, pos - 3 * w, 3 * w)
    && KeysAt(buf, KeysPos(buf, pos, w), KeysWidth(buf, pos, w), entries)
  }

  // ----- what a reference yields -----

  /** Reading the reference with the accessor for the kind of the tree yields the tree, and stays in the buffer. */
  ghost predicate Reads(buf: seq<byte>, r: Reference, tree: Tree)
    decreases tree, 1
  {
    match tree
    case Null => r.typ == FBT_NULL
    case Bool(b) => r.typ == FBT_BOOL && IsByteWidth(r.parentWidth) && InBuffer(buf, r.pos, r.parentWidth)
        && (ReadUInt(buf, r.pos, r.parentWidth) != 0 <==> b)
    case Int(i) => r.typ == FBT_INT && IsByteWidth(r.parentWidth) && InBuffer(buf, r.pos, r.parentWidth)
        && ReadInt(buf, r.pos, r.parentWidth) == i
    case UInt(u) => r.typ == FBT_UINT && IsByteWidth(r.parentWidth) && InBuffer(buf, r.pos, r.parentWidth)
        && ReadUInt(buf, r.pos, r.parentWidth) == u
    case _ =>
      && IsByteWidth(r.parentWidth) && InBuffer(buf, r.pos, r.parentWidth)
      && Stored(buf, Indirect(buf, r.pos, r.parentWidth), r.byteWidth, r.typ, tree)
  }

  /** The object of type `typ` at `pos`, whose own elements or size take `w` bytes, is the tree. */
  ghost predicate Stored(buf: seq<byte>, pos: int, w: nat, typ: int, tree: Tree)
    decreases tree, 0
  {
    match tree
    case IndirectInt(i) => typ == FBT_INDIRECT_INT && IsByteWidth(w) && InBuffer(buf, pos, w)
        && ReadInt(buf, pos, w) == i
    case IndirectUInt(u) => typ == FBT_INDIRECT_UINT && IsByteWidth(w) && InBuffer(buf, pos, w)
        && ReadUInt(buf, pos, w) == u
    case Key(k) => typ == FBT_KEY && KeyAt(buf, pos, k)
    case String(s) =>
      typ == FBT_STRING && SizedAt(buf, pos, w, |s|) && InBuffer(buf, pos, |s| + 1) && buf[pos..pos + |s|] == s
          && buf[pos + |s|] == 0
    case Blob(s) => typ == FBT_BLOB && SizedAt(buf, pos, w, |s|) && InBuffer(buf, pos, |s|) && buf[pos..pos + |s|] == s
    case Vector(elements) =>
      && typ == FBT_VECTOR && SizedAt(buf, pos, w, |elements|)
      && forall i :: 0 <= i < |elements| ==> ElementReads(buf, pos, w, |elements|, i, elements[i])
    case Map(entries) =>
      && typ == FBT_MAP && SizedAt(buf, pos, w, |entries|) && HasKeys(buf, pos, w, entries)
      && forall i :: 0 <= i < |entries| ==> ElementReads(buf, pos, w, |entries|, i, entries[i].value)
    case _ => false
  }

  ghost predicate ElementReads(buf: seq<byte>, pos: int, w: nat, size: nat, i: nat, tree: Tree)
    decreases tree, 2
  {
    InBuffer(buf, pos + size * w + i, 1) && Reads(buf, Element(buf, pos, w, size, i), tree)
  }

  lemma KeyIsRead(buf: seq<byte>, r: Reference, k: seq<byte>)
    requires Reads(buf, r, Key(k))
    ensures IsByteWidth(r.parentWidth) && InBuffer(buf, r.pos, r.parentWidth)
      && KeyAt(buf, Indirect(buf, r.pos, r.parentWidth), k)
  {
    assert Stored(buf, Indirect(buf, r.pos, r.parentWidth), r.byteWidth, r.typ, Key(k));
  }

  // ----- later bytes do not matter -----

  lemma KeyStays(buf: seq<byte>, more: seq<byte>, pos: int, k: seq<byte>)
    requires KeyAt(buf, pos, k)
    ensures KeyAt(buf + more, pos, k)
  {
    SliceStays(buf, more, pos, |k|);
  }

  lemma SizedStays(buf: seq<byte>, more: seq<byte>, pos: int, w: nat, n: nat)
    requires SizedAt(buf, pos, w, n)
    ensures SizedAt(buf + more, pos, w, n)
  {
    ReadStays(buf, more, pos - w, w);
  }

  lemma KeysStay(buf: seq<byte>, more: seq<byte>, pos: int, w: nat, entries: seq<Entry>)
    requires KeysAt(buf, pos, w, entries)
    ensures KeysAt(buf + more, pos, w, entries)
  {
    SizedStays(buf, more, pos, w, |entries|);
    forall i | 0 <= i < |entries|
      ensures KeyElementIs(buf + more, pos, w, i, entries[i].key)
    {
      assert KeyElementIs(buf, pos, w, i, entries[i].key);
      ReadStays(buf, more, pos + i * w, w);
      KeyStays(buf, more, Indirect(buf, pos + i * w, w), entries[i].key);
    }
  }

  lemma HasKeysStays(buf: seq<byte>, more: seq<byte>, pos: int, w: nat, entries: seq<Entry>)
    requires HasKeys(buf, pos, w, entries)
    ensures HasKeys(buf + more, pos, w, entries)
  {
    ReadStays(buf, more, pos - 3 * w, w);
    ReadStays(buf, more, pos - 2 * w, w);
    KeysStay(buf, more, KeysPos(buf, pos, w), KeysWidth(buf, pos, w), entries);
  }

  lemma {:induction false} ReadsStays(buf: seq<byte>, more: seq<byte>, r: Reference, tree: Tree)
    requires Reads(buf, r, tree)
    ensures Reads(buf + more, r, tree)
    decreases tree, 1
  {
    hide Stored;
    if !tree.Null? {
      ReadStays(buf, more, r.pos, r.parentWidth);
    }
    if !tree.Null? && !tree.Bool? && !tree.Int? && !tree.UInt? {
      StoredStays(buf, more, Indirect(buf, r.pos, r.parentWidth), r.byteWidth, r.typ, tree);
    }
  }

  lemma {:induction false} ElementStays(buf: seq<byte>, more: seq<byte>, pos: int, w: nat, size: nat, i: nat,
                                        tree: Tree)
    requires ElementReads(buf, pos, w, size, i, tree)
    ensures ElementReads(buf + more, pos, w, size, i, tree)
    decreases tree, 2
  {
    ReadsStays(buf, more, Element(buf, pos, w, size, i), tree);
  }

  /** What is stored in a buffer is still stored there when more is appended. */
  lemma {:induction false} StoredStays(buf: seq<byte>, more: seq<byte>, pos: int, w: nat, typ: int, tree: Tree)
    requires Stored(buf, pos, w, typ, tree)
    ensures Stored(buf + more, pos, w, typ, tree)
    decreases tree, 0
  {
    match tree
    case IndirectInt(i) => ReadStays(buf, more, pos, w);
    case IndirectUInt(u) => ReadStays(buf, more, pos, w);
    case Key(k) => KeyStays(buf, more, pos, k);
    case String(s) =>
      SizedStays(buf, more, pos, w, |s|);
      SliceStays(buf, more, pos, |s|);
    case Blob(s) =>
      SizedStays(buf, more, pos, w, |s|);
      SliceStays(buf, more, pos, |s|);
    case Vector(elements) =>
      SizedStays(buf, more, pos, w, |elements|);
      forall i | 0 <= i < |elements|
        ensures ElementReads(buf + more, pos, w, |elements|, i, elements[i])
      {
        ElementStays(buf, more, pos, w, |elements|, i, elements[i]);
      }
    case Map(entries) =>
      SizedStays(buf, more, pos, w, |entries|);
      HasKeysStays(buf, more, pos, w, entries);
      forall i | 0 <= i < |entries|
        ensures ElementReads(buf + more, pos, w, |entries|, i, entries[i].value)
      {
        ElementStays(buf, more, pos, w, |entries|, i, entries[i].value);
      }
    case _ =>
  }

  // ----- the root -----

  /** The root is found from the end of the buffer: its width, its packed type, and before them its value. */
  function GetRoot(buf: seq<byte>): Reference
    requires |buf| >= 2
  {
    var width := buf[|buf| - 1];
    Unpacked(|buf| - 2 - width, width, buf[|buf| - 2])
  }

  // ----- keys in order -----

  /** The sign of `strcmp` on two strings given without their NULs. */
  function Compare(a: seq<byte>, b: seq<byte>): int {
    if a == [] && b == [] then 0
    else if a == [] then -1
    else if b == [] then 1
    else if a[0] != b[0] then (if a[0] < b[0] then -1 else 1)
    else Compare(a[1..], b[1..])
  }

  lemma {:induction false} CompareIsZero(a: seq<byte>, b: seq<byte>)
    ensures Compare(a, b) == 0 <==> a == b
  {
    if a != [] && b != [] && a[0] == b[0] {
      CompareIsZero(a[1..], b[1..]);
      assert a == [a[0]] + a[1..] && b == [b[0]] + b[1..];
    }
  }

  lemma {:induction false} CompareFlips(a: seq<byte>, b: seq<byte>)
    ensures Compare(a, b) == -Compare(b, a)
  {
    if a != [] && b != [] && a[0] == b[0] {
      CompareFlips(a[1..], b[1..]);
    }
  }

  lemma {:induction false} CompareChains(a: seq<byte>, b: seq<byte>, c: seq<byte>)
    requires Compare(a, b) <= 0 && Compare(b, c) <= 0
    ensures Compare(a, c) <= 0
    ensures Compare(a, b) < 0 || Compare(b, c) < 0 ==> Compare(a, c) < 0
  {
    if a != [] && b != [] && c != [] && a[0] == b[0] == c[0] {
      CompareChains(a[1..], b[1..], c[1..]);
    }
  }

  ghost predicate SortedKeys(entries: seq<Entry>) {
    forall i, j :: 0 <= i < j < |entries| ==> Compare(entries[i].key, entries[j].key) <= 0
  }

  ghost predicate DistinctKeys(entries: seq<Entry>) {
    forall i, j :: 0 <= i < j < |entries| ==> entries[i].key != entries[j].key
  }

  /** The string a reader of NUL-terminated strings finds at `pos`. */
  function CString(buf: seq<byte>, pos: nat): seq<byte>
    decreases |buf| - pos
  {
    if pos >= |buf| || buf[pos] == 0 then [] else [buf[pos]] + CString(buf, pos + 1)
  }

  lemma {:induction false} KeyIsCString(buf: seq<byte>, pos: nat, k: seq<byte>)
    requires KeyAt(buf, pos, k)
    ensures CString(buf, pos) == k
    decreases |k|
  {
    if k != [] {
      assert buf[pos] == buf[pos..pos + |k|][0] == k[0];
      assert buf[pos + 1..pos + |k|] == buf[pos..pos + |k|][1..] == k[1..];
      KeyIsCString(buf, pos + 1, k[1..]);
    }
  }

  // ----- a reader gets one answer -----

  lemma KeyIsUnique(buf: seq<byte>, pos: int, a: seq<byte>, b: seq<byte>)
    requires KeyAt(buf, pos, a) && KeyAt(buf, pos, b)
    ensures a == b
  {
    KeyIsCString(buf, pos, a);
    KeyIsCString(buf, pos, b);
  }

  /** A reference reads as at most one tree. */
  lemma {:induction false} ReadsOneTree(buf: seq<byte>, r: Reference, a: Tree, b: Tree)
    requires Reads(buf, r, a) && Reads(buf, r, b)
    ensures a == b
    decreases a, 1
  {
    hide ReadUInt;
    hide ReadInt;
    if !IsInline(r.typ) {
      StoredOneTree(buf, Indirect(buf, r.pos, r.parentWidth), r.byteWidth, r.typ, a, b);
    }
  }

  lemma {:induction false} StoredOneTree(buf: seq<byte>, pos: int, w: nat, typ: int, a: Tree, b: Tree)
    requires Stored(buf, pos, w, typ, a) && Stored(buf, pos, w, typ, b)
    ensures a == b
    decreases a, 0
  {
    hide ReadUInt;
    hide ReadInt;
    match a
    case Key(k) => KeyIsUnique(buf, pos, k, b.k);
    case Vector(elements) =>
      forall i | 0 <= i < |elements|
        ensures elements[i] == b.elements[i]
      {
        ElementOneTree(buf, pos, w, |elements|, i, elements[i], b.elements[i]);
      }
    case Map(entries) =>
      forall i | 0 <= i < |entries|
        ensures entries[i] == b.entries[i]
      {
        ElementOneTree(buf, pos, w, |entries|, i, entries[i].value, b.entries[i].value);
        OneKey(buf, pos, w, entries, b.entries, i);
      }
    case _ =>
  }

  lemma {:induction false} ElementOneTree(buf: seq<byte>, pos: int, w: nat, size: nat, i: nat, a: Tree, b: Tree)
    requires ElementReads(buf, pos, w, size, i, a) && ElementReads(buf, pos, w, size, i, b)
    ensures a == b
    decreases a, 2
  {
    ReadsOneTree(buf, Element(buf, pos, w, size, i), a, b);
  }

  lemma OneKey(buf: seq<byte>, pos: int, w: nat, a: seq<Entry>, b: seq<Entry>, i: nat)
    requires HasKeys(buf, pos, w, a) && HasKeys(buf, pos, w, b) && i < |a| == |b|
    ensures a[i].key == b[i].key
  {
    var keysPos, keysWidth := KeysPos(buf, pos, w), KeysWidth(buf, pos, w);
    assert KeyElementIs(buf, keysPos, keysWidth, i, a[i].key) && KeyElementIs(buf, keysPos, keysWidth, i, b[i].key);
    KeyIsUnique(buf, Indirect(buf, keysPos + i * keysWidth, keysWidth), a[i].key, b[i].key);
  }

  /** The value under a key of an association list. */
  function Find(entries: seq<Entry>, key: seq<byte>): Option<Tree> {
    if entries == [] then None
    else if entries[0].key == key then Some(entries[0].value)
    else Find(entries[1..], key)
  }

  lemma {:induction false} FindsAt(entries: seq<Entry>, key: seq<byte>, i: nat)
    requires DistinctKeys(entries) && i < |entries| && entries[i].key == key
    ensures Find(entries, key) == Some(entries[i].value)
  {
    if i > 0 {
      FindsAt(entries[1..], key, i - 1);
    }
  }

  lemma {:induction false} FindsNone(entries: seq<Entry>, key: seq<byte>)
    ensures Find(entries, key) == None <==> forall i :: 0 <= i < |entries| ==> entries[i].key != key
  {
    if entries != [] && entries[0].key != key {
      FindsNone(entries[1..], key);
      assert forall i :: 0 < i < |entries| ==> entries[i] == entries[1..][i - 1];
    }
  }

  lemma AllBehindAreGreater(entries: seq<Entry>, key: seq<byte>, mid: nat)
    requires SortedKeys(entries) && mid < |entries| && Compare(key, entries[mid].key) < 0
    ensures forall i :: mid <= i < |entries| ==> Compare(key, entries[i].key) < 0
  {
    forall i | mid <= i < |entries|
      ensures Compare(key, entries[i].key) < 0
    {
      CompareIsZero(entries[mid].key, entries[mid].key);
      CompareChains(key, entries[mid].key, entries[i].key);
    }
  }

  lemma AllBeforeAreLess(entries: seq<Entry>, key: seq<byte>, mid: nat)
    requires SortedKeys(entries) && mid < |entries| && Compare(key, entries[mid].key) > 0
    ensures forall i :: 0 <= i <= mid ==> Compare(key, entries[i].key) > 0
  {
    forall i | 0 <= i <= mid
      ensures Compare(key, entries[i].key) > 0
    {
      CompareIsZero(entries[mid].key, entries[mid].key);
      CompareFlips(key, entries[mid].key);
      CompareChains(entries[i].key, entries[mid].key, key);
      CompareFlips(key, entries[i].key);
    }
  }

  /** Binary search among the keys, each reached through its offset: the index of the key, if it is there. */
  method SearchKeys(buf: seq<byte>, pos: int, w: nat, size: nat, key: seq<byte>, ghost entries: seq<Entry>)
    returns (found: Option<nat>)
    requires KeysAt(buf, pos, w, entries) && size == |entries| && SortedKeys(entries)
    ensures match found
      case Some(i) => i < size && entries[i].key == key
      case None => forall i :: 0 <= i < size ==> entries[i].key != key
  {
    hide FromBytes;
    hide CString;
    hide Compare;
    var lo, hi := 0, size;
    while lo < hi
      invariant 0 <= lo <= hi <= size
      invariant forall i :: 0 <= i < lo ==> Compare(key, entries[i].key) > 0
      invariant forall i :: hi <= i < size ==> Compare(key, entries[i].key) < 0
    {
      var mid := (lo + hi) / 2;
      assert KeyElementIs(buf, pos, w, mid, entries[mid].key);
      var at := Indirect(buf, pos + mid * w, w);
      KeyIsCString(buf, at, entries[mid].key);
      var order := Compare(key, CString(buf, at));
      if order == 0 {
        CompareIsZero(key, entries[mid].key);
        return Some(mid);
      } else if order < 0 {
        AllBehindAreGreater(entries, key, mid);
        hi := mid;
      } else {
        AllBeforeAreLess(entries, key, mid);
        lo := mid + 1;
      }
    }
    forall i | 0 <= i < size
      ensures entries[i].key != key
    {
      CompareIsZero(key, entries[i].key);
    }
    return None;
  }

  /** `Map::operator[]`: a reference to the value under the key, or to null. */
  method MapAt(buf: seq<byte>, pos: int, w: nat, key: seq<byte>, ghost entries: seq<Entry>) returns (r: Reference)
    requires Stored(buf, pos, w, FBT_MAP, Map(entries)) && SortedKeys(entries) && DistinctKeys(entries)
    ensures Reads(buf, r, match Find(entries, key) case Some(value) => value case None => Null)
  {
    var keysPos, keysWidth := KeysPos(buf, pos, w), KeysWidth(buf, pos, w);
    var size := ReadUInt(buf, keysPos - keysWidth, keysWidth);
    var found := SearchKeys(buf, keysPos, keysWidth, size, key, entries);
    if found.None? {
      FindsNone(entries, key);
      return Unpacked(0, 1, PackedType(0, FBT_NULL));
    }
    FindsAt(entries, key, found.value);
    var n := ReadUInt(buf, pos - w, w);
    assert ElementReads(buf, pos, w, n, found.value, entries[found.value].value);
    return Element(buf, pos, w, n, found.value);
  }
}
