/** Numbers of 1, 2, 4 or 8 bytes in little-endian order. */
module LittleEndian {
  import opened Arithmetic
  import opened Bytes

  predicate IsByteWidth(w: int) { w == 1 || w == 2 || w == 4 || w == 8 }

  /** One more than the largest unsigned value of `w` bytes. */
  function Limit(w: nat): nat
    requires IsByteWidth(w)
  {
    if w == 1 then 0x100 else if w == 2 then 0x1_0000 else if w == 4 then 0x1_0000_0000 else TWO_64
  }

  /** The number of bytes that align `size` to a multiple of `w`. */
  function PaddingBytes(size: nat, w: nat): nat
    requires IsByteWidth(w)
  {
    (0 - size) % w
  }

  lemma PaddingAligns(size: nat, w: nat)
    requires IsByteWidth(w)
    ensures PaddingBytes(size, w) < w && (size + PaddingBytes(size, w)) % w == 0
  {}

  lemma PaddingGrows(size: nat, w: nat)
    requires IsByteWidth(w) && w < 8
    ensures PaddingBytes(size, w) <= PaddingBytes(size, 2 * w)
  {
    RemainderGrows(0 - size, w);
  }

  /** The `n` low bytes of `x` in two's complement, least significant first. */
  function ToBytes(x: int, n: nat): (r: seq<byte>)
    ensures |r| == n
    decreases n
  {
    if n == 0 then [] else [x % 256] + ToBytes(x / 256, n - 1)
  }

  function FromBytes(s: seq<byte>): nat {
    if s == [] then 0 else s[0] + 256 * FromBytes(s[1..])
  }

  function Power256(n: nat): nat {
    if n == 0 then 1 else 256 * Power256(n - 1)
  }

  lemma {:induction false} BytesRoundTrip(x: int, n: nat)
    ensures Power256(n) > 0 && FromBytes(ToBytes(x, n)) == x % Power256(n)
    decreases n
  {
    if n > 0 {
      BytesRoundTrip(x / 256, n - 1);
      var p := Power256(n - 1);
      assert ToBytes(x, n)[1..] == ToBytes(x / 256, n - 1);
      ModuloSplits(x, p);
    }
  }

  lemma ModuloSplits(x: int, p: nat)
    requires p > 0
    ensures x % (256 * p) == x % 256 + 256 * ((x / 256) % p)
  {
    var q, r := (x / 256) / p, (x / 256) % p;
    assert x == (256 * p) * q + (256 * r + x % 256) by {
      assert x / 256 == p * q + r;
      assert (256 * p) * q == 256 * (p * q);
    }
    DivisionIsUnique(x, 256 * p, q, 256 * r + x % 256);
  }

  lemma {:induction false} FromBytesIsSmall(s: seq<byte>)
    ensures FromBytes(s) < Power256(|s|)
  {
    if s != [] {
      FromBytesIsSmall(s[1..]);
    }
  }

  lemma PowersAreLimits(w: nat)
    requires IsByteWidth(w)
    ensures Power256(w) == Limit(w)
  {
    assert Power256(4) == 256 * (256 * (256 * (256 * Power256(0))));
    assert Power256(8) == 256 * (256 * (256 * (256 * Power256(4))));
  }

  /** Reading an unsigned value back gives what was written, cut to the width. */
  lemma UnsignedRoundTrip(x: int, w: nat)
    requires IsByteWidth(w)
    ensures FromBytes(ToBytes(x, w)) == x % Limit(w)
  {
    BytesRoundTrip(x, w);
    PowersAreLimits(w);
  }

  /** The signed value of unsigned `u` of `w` bytes. */
  function Signed(u: nat, w: nat): int
    requires IsByteWidth(w)
  {
    if 2 * u < Limit(w) then u else u - Limit(w)
  }

  lemma SignedRoundTrip(i: int, w: nat)
    requires IsByteWidth(w) && 0 - Limit(w) <= 2 * i < Limit(w)
    ensures Signed(FromBytes(ToBytes(i, w)), w) == i
  {
    UnsignedRoundTrip(i, w);
    DivisionIsUnique(i, Limit(w), if i < 0 then -1 else 0, if i < 0 then i + Limit(w) else i);
  }

  // ----- numbers in a buffer -----

  predicate InBuffer(buf: seq<byte>, pos: int, n: int) { 0 <= pos && 0 <= n && pos + n <= |buf| }

  function ReadUInt(buf: seq<byte>, pos: int, w: nat): nat
    requires IsByteWidth(w) && InBuffer(buf, pos, w)
  {
    FromBytes(buf[pos..pos + w])
  }

  function ReadInt(buf: seq<byte>, pos: int, w: nat): int
    requires IsByteWidth(w) && InBuffer(buf, pos, w)
  {
    Signed(ReadUInt(buf, pos, w), w)
  }

  lemma ReadStays(buf: seq<byte>, more: seq<byte>, pos: int, w: nat)
    requires IsByteWidth(w) && InBuffer(buf, pos, w)
    ensures InBuffer(buf + more, pos, w) && ReadUInt(buf + more, pos, w) == ReadUInt(buf, pos, w)
  {
    assert (buf + more)[pos..pos + w] == buf[pos..pos + w];
  }

  lemma SliceStays(buf: seq<byte>, more: seq<byte>, pos: int, n: int)
    requires InBuffer(buf, pos, n)
    ensures InBuffer(buf + more, pos, n) && (buf + more)[pos..pos + n] == buf[pos..pos + n]
  {}
}
