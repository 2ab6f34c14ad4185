/** Two stacks in one growing buffer: `vector_downward.h` over `allocator.h`.

    The data grows from the end of the buffer towards lower addresses, the scratch area from its start. Pointers
    are kept as distances from the start of the buffer. */
module VectorDownwards {
  import opened Arithmetic

  import opened Bytes

  function RoundedUp(x: nat, align: nat): nat
    requires align > 0
  {
    QuotientIsLess(x + align - 1, align);
    ProductGrows(0, (x + align - 1) / align, align);
    (x + align - 1) / align * align
  }

  lemma RoundingIsEnough(x: nat, align: nat)
    requires align > 0
    ensures x <= RoundedUp(x, align) < x + align
  {
    var y := x + align - 1;
    assert y == align * (y / align) + y % align;
  }

  /** `memcpy` of bytes to position `at`. */
  method CopyTo(target: array<byte>, at: nat, bytes: seq<byte>)
    requires at + |bytes| <= target.Length
    modifies target
    ensures target[..] == old(target[..at]) + bytes + old(target[at + |bytes|..])
  {
    ghost var before := target[..];
    for i := 0 to |bytes|
      invariant target[..] == before[..at] + bytes[..i] + before[at + i..]
    {
      target[at + i] := bytes[i];
      assert bytes[..i + 1] == bytes[..i] + [bytes[i]];
    }
    assert bytes[..|bytes|] == bytes;
  }

  /** A larger buffer with what was in use at both ends of the old one. */
  method ReallocateDownward(source: array<byte>, newSize: nat, back: nat, front: nat) returns (target: array<byte>)
    requires back + front <= source.Length <= newSize
    ensures fresh(target) && target.Length == newSize
    ensures target[newSize - back..] == source[source.Length - back..] && target[..front] == source[..front]
  {
    target := new byte[newSize](_ => 0);
    CopyTo(target, newSize - back, source[source.Length - back..]);
    assert target[newSize - back..] == source[source.Length - back..];
    CopyTo(target, 0, source[..front]);
    assert target[..front] == source[..front];
  }

  lemma PutInFront(s: seq<byte>, r: seq<byte>, cur: nat, scratch: nat, bytes: seq<byte>)
    requires scratch <= cur && cur + |bytes| <= |s| && r == s[..cur] + bytes + s[cur + |bytes|..]
    ensures r[cur..] == bytes + s[cur..][|bytes|..] && r[..scratch] == s[..scratch]
  {}

  /** What a patch behind `cur` does to the two stacks. */
  lemma PutBehind(s: seq<byte>, r: seq<byte>, cur: nat, scratch: nat, d: nat, bytes: seq<byte>)
    requires scratch <= cur && cur + d + |bytes| <= |s| && r == s[..cur + d] + bytes + s[cur + d + |bytes|..]
    ensures r[cur..] == s[cur..][..d] + bytes + s[cur..][d + |bytes|..] && r[..scratch] == s[..scratch]
  {}

  lemma SliceOfRest(s: seq<byte>, cur: nat, at: nat, n: nat)
    requires cur + at + n <= |s|
    ensures s[cur..][at..at + n] == s[cur + at..cur + at + n]
  {}

  function Zeros(n: nat): (r: seq<byte>)
    ensures |r| == n
  {
    seq(n, _ => 0)
  }

  // ----- sequences of writes -----

  /** A write to one of the two stacks. */
  datatype Write = WriteData(bytes: seq<byte>) | WriteScratch(bytes: seq<byte>)

  /** The number of bytes the writes add to the data. */
  function DataSize(writes: seq<Write>): nat {
    if writes == [] then 0
    else
      var last := writes[|writes| - 1];
      DataSize(writes[..|writes| - 1]) + if last.WriteData? then |last.bytes| else 0
  }

  lemma {:induction false} DataSizeGrows(writes: seq<Write>, k: nat)
    requires k <= |writes|
    ensures DataSize(writes[..k]) <= DataSize(writes)
    decreases |writes|
  {
    if k == |writes| {
      assert writes[..k] == writes;
    } else {
      DataSizeGrows(writes[..|writes| - 1], k);
      assert writes[..|writes| - 1][..k] == writes[..k];
    }
  }

  lemma DataSizeStep(writes: seq<Write>, k: nat)
    requires k < |writes|
    ensures DataSize(writes[..k + 1]) == DataSize(writes[..k]) + if writes[k].WriteData? then |writes[k].bytes| else 0
    ensures DataSize(writes[..k]) <= DataSize(writes)
  {
    assert writes[..k + 1][..k] == writes[..k];
    DataSizeGrows(writes, k);
  }

  // ----- the buffer -----

  class VectorDownward {
    var memory: array?<byte>
    var reserved: nat
    var size: nat
    var cur: nat
    var scratch: nat
    const initialSize: nat
    const bufferMinAlign: nat
    const maxSize: nat

    predicate Valid()
      reads this
    {
      && bufferMinAlign > 0 && scratch <= cur <= reserved && size == reserved - cur
      && (memory == null ==> reserved == 0)
      && (memory != null ==> memory.Length == reserved)
    }

    /** The data, the latest byte first. */
    ghost function Data(): (s: seq<byte>)
      reads this, memory
      requires Valid()
      ensures |s| == size
    {
      if memory == null then [] else memory[cur..]
    }

    /** The scratch area, the latest byte last. */
    ghost function Scratch(): (s: seq<byte>)
      reads this, memory
      requires Valid()
      ensures |s| == scratch
    {
      if memory == null then [] else memory[..scratch]
    }

    constructor (initialSize: nat, bufferMinAlign: nat, maxSize: nat)
      requires bufferMinAlign > 0
      ensures Valid() && Data() == [] && Scratch() == [] && memory == null
      ensures this.initialSize == initialSize && this.bufferMinAlign == bufferMinAlign && this.maxSize == maxSize
    {
      this.initialSize, this.bufferMinAlign, this.maxSize := initialSize, bufferMinAlign, maxSize;
      memory, reserved, size, cur, scratch := null, 0, 0, 0, 0;
    }

    /** Moves both stacks to a larger buffer, the data to its end and the scratch area to its start. */
    method Reallocate(len: nat)
      requires Valid()
      modifies this
      ensures Valid() && memory != null && fresh(memory) && size == old(size) && scratch == old(scratch)
      ensures cur - scratch >= old(cur - scratch) + len
      ensures Data() == old(Data()) && Scratch() == old(Scratch())
    {
      var oldReserved, oldSize, oldScratchSize := reserved, size, scratch;
      var growth := Max(len, if oldReserved != 0 then oldReserved / 2 else initialSize);
      RoundingIsEnough(oldReserved + growth, bufferMinAlign);
      reserved := RoundedUp(oldReserved + growth, bufferMinAlign);
      if memory != null {
        memory := ReallocateDownward(memory, reserved, oldSize, oldScratchSize);
      } else {
        memory := new byte[reserved](_ => 0);
      }
      cur := reserved - oldSize;
      scratch := oldScratchSize;
    }

    /** Makes room for `len` more bytes. */
    method EnsureSpace(len: nat)
      requires Valid() && size < maxSize
      modifies this
      ensures Valid() && cur - scratch >= len && size == old(size) && scratch == old(scratch)
      ensures Data() == old(Data()) && Scratch() == old(Scratch())
      ensures memory == old(memory) || fresh(memory)
    {
      if len > cur - scratch {
        Reallocate(len);
      }
    }

    /** Lowers the current position; the new bytes are whatever lies there. */
    method MakeSpace(len: nat)
      requires Valid() && size < maxSize
      modifies this
      ensures Valid() && size == old(size) + len && Data()[len..] == old(Data()) && Scratch() == old(Scratch())
      ensures memory == old(memory) || fresh(memory)
      ensures len > 0 ==> memory != null
    {
      if len != 0 {
        EnsureSpace(len);
        cur := cur - len;
        size := size + len;
      }
    }

    method Push(bytes: seq<byte>)
      requires Valid() && size < maxSize
      modifies this, memory
      ensures Valid() && Data() == bytes + old(Data()) && Scratch() == old(Scratch())
      ensures memory == old(memory) || fresh(memory)
    {
      if |bytes| > 0 {
        MakeSpace(|bytes|);
        ghost var spaced := memory[..];
        CopyTo(memory, cur, bytes);
        PutInFront(spaced, memory[..], cur, scratch, bytes);
      }
    }

    method Fill(n: nat)
      requires Valid() && size < maxSize
      modifies this, memory
      ensures Valid() && Data() == Zeros(n) + old(Data()) && Scratch() == old(Scratch())
      ensures memory == old(memory) || fresh(memory)
    {
      Push(Zeros(n));
    }

    method Pop(n: nat)
      requires Valid() && n <= size
      modifies this
      ensures Valid() && Data() == old(Data())[n..] && Scratch() == old(Scratch()) && memory == old(memory)
    {
      cur := cur + n;
      size := size - n;
    }

    method ScratchPush(bytes: seq<byte>)
      requires Valid() && size < maxSize
      modifies this, memory
      ensures Valid() && Data() == old(Data()) && Scratch() == old(Scratch()) + bytes
      ensures memory == old(memory) || fresh(memory)
    {
      ghost var data, scr := Data(), Scratch();
      if |bytes| > 0 {
        EnsureSpace(|bytes|);
        CopyTo(memory, scratch, bytes);
        assert memory[cur..] == data;
        scratch := scratch + |bytes|;
        assert memory[..scratch] == scr + bytes;
      }
    }

    method ScratchPop(n: nat)
      requires Valid() && n <= scratch
      modifies this
      ensures Valid() && scratch == old(scratch) - n && Data() == old(Data())
        && Scratch() == old(Scratch())[..scratch] && memory == old(memory)
    {
      scratch := scratch - n;
    }

    /** Empties the scratch area. */
    method ClearScratch()
      requires Valid()
      modifies this
      ensures Valid() && Data() == old(Data()) && Scratch() == [] && memory == old(memory)
    {
      scratch := 0;
    }

    /** Empties both stacks and keeps the buffer. */
    method Clear()
      requires Valid()
      modifies this
      ensures Valid() && Data() == [] && Scratch() == [] && memory == old(memory)
    {
      if memory != null {
        cur := reserved;
      } else {
        reserved, cur := 0, 0;
      }
      size, scratch := 0, 0;
    }

    /** The byte at an offset from the end of the buffer: offsets do not depend on where the buffer lies. */
    method DataAt(offset: nat) returns (b: byte)
      requires Valid() && 0 < offset <= size
      ensures b == Data()[size - offset]
    {
      b := memory[reserved - offset];
    }

    /** The `n` bytes from an offset on. */
    method ReadAt(offset: nat, n: nat) returns (bytes: seq<byte>)
      requires Valid() && n <= offset <= size
      ensures bytes == Data()[size - offset..size - offset + n]
    {
      if memory == null {
        return [];
      }
      SliceOfRest(memory[..], cur, size - offset, n);
      bytes := memory[reserved - offset..reserved - offset + n];
    }

    method ScratchAt(at: nat, n: nat) returns (bytes: seq<byte>)
      requires Valid() && at + n <= scratch
      ensures bytes == Scratch()[at..at + n]
    {
      if memory == null {
        return [];
      }
      bytes := memory[at..at + n];
    }

    /** Patches bytes already written. */
    method WriteAt(offset: nat, bytes: seq<byte>)
      requires Valid() && |bytes| <= offset <= size
      modifies memory
      ensures Valid()
      ensures Data() == old(Data())[..size - offset] + bytes + old(Data())[size - offset + |bytes|..]
        && Scratch() == old(Scratch())
    {
      if |bytes| > 0 {
        ghost var before := memory[..];
        assert reserved - offset == cur + (size - offset);
        CopyTo(memory, reserved - offset, bytes);
        PutBehind(before, memory[..], cur, scratch, size - offset, bytes);
      }
    }
  }

  method WriteOne(v: VectorDownward, w: Write, ghost offset: nat)
    requires v.Valid() && 0 < offset <= v.size < v.maxSize
    modifies v, v.memory
    ensures v.Valid() && v.size == old(v.size) + if w.WriteData? then |w.bytes| else 0
    ensures v.memory == old(v.memory) || fresh(v.memory)
    ensures v.Data()[v.size - offset] == old(v.Data())[old(v.size) - offset]
  {
    match w
    case WriteData(bytes) => v.Push(bytes);
    case WriteScratch(bytes) => v.ScratchPush(bytes);
  }

  method WriteAll(v: VectorDownward, writes: seq<Write>, ghost offset: nat)
    requires v.Valid() && 0 < offset <= v.size && v.size + DataSize(writes) < v.maxSize
    modifies v, v.memory
    ensures v.Valid() && v.size == old(v.size) + DataSize(writes)
    ensures v.Data()[v.size - offset] == old(v.Data())[old(v.size) - offset]
  {
    hide VectorDownward.Valid;
    hide VectorDownward.Data;
    assert writes[..0] == [] && DataSize([]) == 0;
    hide DataSize;
    ghost var named := v.Data()[v.size - offset];
    for k := 0 to |writes|
      invariant v.Valid() && v.size == old(v.size) + DataSize(writes[..k])
      invariant v.memory == old(v.memory) || fresh(v.memory)
      invariant v.Data()[v.size - offset] == named
    {
      DataSizeStep(writes, k);
      WriteOne(v, writes[k], offset);
    }
    assert writes[..|writes|] == writes;
  }

  /** Whatever is written to either stack between two reads, and wherever the buffer moves, an offset names the same
      byte. */
  method OffsetsAreStable(v: VectorDownward, writes: seq<Write>, offset: nat) returns (before: byte, after: byte)
    requires v.Valid() && 0 < offset <= v.size && v.size + DataSize(writes) < v.maxSize
    modifies v, v.memory
    ensures v.Valid() && v.size == old(v.size) + DataSize(writes)
    ensures before == after == old(v.Data())[old(v.size) - offset]
  {
    hide VectorDownward.Valid;
    hide VectorDownward.Data;
    before := v.DataAt(offset);
    WriteAll(v, writes, offset);
    after := v.DataAt(offset);
  }
}
