/** The scratchpad allocator: `fixedpoint.h`.

    Addresses are numbers; the buffer lies at `base`. Every operation holds the mutex, so it is one step. The
    allocators below it are parameters: the address they would return, or 0. */
module Scratchpads {
  import opened Bytes

  import opened ScratchpadBlocks

  /** The granules that the rounded size takes; the addition wraps. */
  function Granules(size: nat): nat { ((size + 127) % TWO_64) / 128 }

  /** The payload holds what was asked for exactly when the rounding did not wrap. */
  lemma RoundingSuffices(size: nat)
    requires size < TWO_64
    ensures 128 * Granules(size) >= size <==> size <= TWO_64 - 128
    ensures size <= TWO_64 - 128 ==> 128 * Granules(size) < size + 128
  {}

  /** The blocks right after the buffer was set up. */
  function InitialBlocks(total: nat): seq<Block>
    requires total >= 128
  {
    [Block(total / 128 - 1, true)]
  }

  lemma MarkKeepsLive(mem: seq<Granule>, blocks: seq<Block>, i: nat, isFree: bool)
    requires i < |blocks|
    ensures LiveUnchanged(mem, MarkedMemory(mem, blocks, i, isFree), blocks)
  {
    PutKeepsLive(mem, blocks, Start(blocks, i),
        Header(128 * blocks[i].size, isFree, NextOf(blocks, i), PrevOf(blocks, i)), i);
  }

  /** What the second merge finds, and what it leaves. */
  lemma PrevCanMerge(mem: seq<Granule>, before: seq<Block>, i: nat)
    requires i < |before| && Laid(mem, MergedWithNext(before, i))
    ensures var middle := MergedWithNext(before, i); var current := Start(middle, i);
      && current < |mem| && mem[current].Header? && mem[current].prev == PrevOf(middle, i)
      && (i > 0 ==>
            && Start(middle, i - 1) < |mem| && mem[Start(middle, i - 1)].Header?
            && mem[Start(middle, i - 1)].isFree == middle[i - 1].isFree
            && CanAbsorb(mem, Start(middle, i - 1), current)
            && Absorbed(mem, Start(middle, i - 1), mem[Start(middle, i - 1)], mem[current], Behind(mem, current)) ==
                MergedMemory(mem, middle, i - 1)
            && Laid(MergedMemory(mem, middle, i - 1), Merge(middle, i - 1))
            && LiveUnchanged(mem, MergedMemory(mem, middle, i - 1), before))
  {
    hide Start;
    hide MergedWithNext;
    hide Absorbed;
    hide MergedMemory;
    hide CanAbsorb;
    hide LiveUnchanged;
    var middle := MergedWithNext(before, i);
    assert HeaderAt(mem, middle, i);
    if i > 0 {
      assert HeaderAt(mem, middle, i - 1);
      AbsorbingMerges(mem, middle, i - 1);
      MergeKeepsLaid(mem, middle, i - 1);
      MiddleStarts(before, i, i - 1);
      if i + 1 < |middle| {
        MiddleStarts(before, i, i + 1);
      }
      MergeKeepsLive(mem, middle, i - 1, before, i - 1, i + 1 + |before| - |middle|);
    }
  }

  lemma InitialIsLaid(mem: seq<Granule>, total: nat)
    requires total % 128 == 0 && total >= 256 && 128 * |mem| == total
      && mem[0] == Header(total - 128, true, NO_BLOCK, NO_BLOCK)
    ensures Laid(mem, InitialBlocks(total)) && Coalesced(InitialBlocks(total))
  {
    var blocks := InitialBlocks(total);
    assert Start(blocks, 1) == Start(blocks, 0) + 1 + blocks[0].size;
    assert HeaderAt(mem, blocks, 0);
  }

  lemma BlockFits(mem: seq<Granule>, blocks: seq<Block>, k: nat)
    requires Laid(mem, blocks) && k < |blocks|
    ensures blocks[k].size < |mem|
  {
    StartGrows(blocks, k, |blocks|);
  }

  lemma TakenStarts(blocks: seq<Block>, k: nat, n: nat)
    requires k < |blocks| && blocks[k].size >= n
    ensures k < |Taken(blocks, k, n)| && !Taken(blocks, k, n)[k].isFree
      && Start(Taken(blocks, k, n), k) == Start(blocks, k)
  {
    assert Taken(blocks, k, n)[..k] == blocks[..k];
    StartOfPrefix(Taken(blocks, k, n), blocks, k);
  }

  /** Releasing the block just taken from a coalesced list restores the list. */
  lemma ReleaseUndoesTake(blocks: seq<Block>, i: nat, n: nat)
    requires Coalesced(blocks) && i < |blocks| && blocks[i].isFree && blocks[i].size >= n
    ensures i < |Taken(blocks, i, n)| && Released(Taken(blocks, i, n), i) == blocks
  {
    var taken := Taken(blocks, i, n);
    assert Apart(blocks, i - 1) && Apart(blocks, i);
    if blocks[i].size >= n + 2 {
      assert Merge(Marked(taken, i, true), i) == blocks;
    } else {
      assert Marked(taken, i, true) == blocks;
    }
  }

  // ----- the allocator -----

  class Scratchpad {
    var memory: array?<Granule>
    var base: nat
    var totalSize: nat
    var head: int
    ghost var blocks: seq<Block>

    ghost predicate Valid()
      reads this, memory
    {
      && totalSize % 128 == 0 && 256 <= totalSize < TWO_63
      && (memory == null ==> blocks == [] && head == NO_BLOCK)
      && (memory != null ==>
            && 128 * memory.Length == totalSize && head == 0 && base > 0 && base % 128 == 0
            && Laid(memory[..], blocks) && Coalesced(blocks))
    }

    /** The pointer to the payload of block `i`. */
    ghost function AddressOf(i: nat): nat
      reads this
      requires i < |blocks|
    {
      base + 128 * (Start(blocks, i) + 1)
    }

    constructor ()
      ensures Valid() && memory == null && totalSize == 32 * 1024 * 1024
    {
      memory, base, totalSize, head := null, 0, 32 * 1024 * 1024, NO_BLOCK;
      blocks := [];
    }

    /** Sets up the buffer at its first use, unless no memory was given. */
    method InitializeIfNeeded(newBase: nat)
      requires Valid() && newBase % 128 == 0
      modifies this
      ensures Valid() && totalSize == old(totalSize)
      ensures old(memory) != null || newBase == 0 ==>
        memory == old(memory) && blocks == old(blocks) && base == old(base)
      ensures old(memory) == null && newBase != 0 ==>
        fresh(memory) && base == newBase && blocks == InitialBlocks(totalSize)
    {
      if memory == null && newBase != 0 {
        var n := totalSize / 128;
        var granules := new Granule[n](_ => Data([]));
        granules[0] := Header(totalSize - 128, true, NO_BLOCK, NO_BLOCK);
        memory, base, head := granules, newBase, 0;
        blocks := InitialBlocks(totalSize);
        InitialIsLaid(memory[..], totalSize);
      }
    }

    /** Gives the buffer back; nothing may be in use. */
    method SetSize(newSize: nat)
      requires Valid() && newSize % 128 == 0 && 256 <= newSize < TWO_63
      requires forall i :: 0 <= i < |blocks| ==> blocks[i].isFree
      modifies this
      ensures Valid() && memory == null && totalSize == newSize
    {
      if memory != null {
        memory, head, blocks := null, NO_BLOCK, [];
      }
      totalSize := newSize;
    }

    /** Takes the first free block that is large enough, splitting it when a header and 128 bytes remain; without
        one, the address from outside. No live payload changes. */
    method Alloc(size: nat, newBase: nat, outside: nat) returns (p: nat)
      requires Valid() && size < TWO_64 && newBase % 128 == 0
      modifies this, memory
      ensures Valid() && totalSize == old(totalSize)
      ensures old(memory) != null ==>
        memory == old(memory) && base == old(base) && LiveUnchanged(old(memory[..]), memory[..], old(blocks))
      ensures var before := if old(memory) == null && newBase != 0 then InitialBlocks(totalSize) else old(blocks);
        match FirstFit(before, Granules(size), 0)
        case Some(i) => blocks == Taken(before, i, Granules(size)) && i < |blocks| && !blocks[i].isFree
            && p == AddressOf(i)
        case None => blocks == before && p == outside
    {
      InitializeIfNeeded(newBase);
      var current;
      ghost var k;
      current, k := FindBlock(size);
      hide Laid;
      hide Coalesced;
      hide Taken;
      hide FirstFit;
      if current == NO_BLOCK {
        NothingChanged(memory, blocks);
        p := outside;
      } else {
        p := TakeBlock(current, ((size + 127) % TWO_64) / 128, k);
      }
    }

    lemma NothingChanged(mem: array?<Granule>, blocks: seq<Block>)
      ensures mem != null ==> LiveUnchanged(mem[..], mem[..], blocks)
    {}

    /** Follows the links to the first free block that is large enough. */
    method FindBlock(size: nat) returns (current: int, ghost k: nat)
      requires Valid()
      ensures match FirstFit(blocks, Granules(size), 0)
        case Some(i) => memory != null && k == i && current == Start(blocks, i)
        case None => current == NO_BLOCK
    {
      hide Coalesced;
      var rounded := ((size + 127) % TWO_64) / 128 * 128;
      current := head;
      k := 0;
      while current != NO_BLOCK
        invariant 0 <= k <= |blocks| && current == (if k < |blocks| then Start(blocks, k) else NO_BLOCK)
        invariant FirstFit(blocks, Granules(size), 0) == FirstFit(blocks, Granules(size), k)
        decreases |blocks| - k
      {
        assert HeaderAt(memory[..], blocks, k);
        var header := memory[current];
        if header.isFree && header.size >= rounded {
          return;
        }
        current := header.next;
        k := k + 1;
      }
    }

    /** Takes `n` granules of the block. */
    method TakeBlock(current: nat, n: nat, ghost k: nat) returns (p: nat)
      requires Valid() && memory != null && k < |blocks| && current == Start(blocks, k) && blocks[k].isFree
        && blocks[k].size >= n
      modifies `blocks, memory
      ensures Valid() && LiveUnchanged(old(memory[..]), memory[..], old(blocks))
      ensures blocks == Taken(old(blocks), k, n) && k < |blocks| && !blocks[k].isFree && p == AddressOf(k)
    {
      ghost var mem, before := memory[..], blocks;
      assert HeaderAt(mem, before, k);
      BlockFits(mem, before, k);
      TakenKeepsCoalesced(before, k, n);
      TakenStarts(before, k, n);
      if memory[current].size >= (128 * n + 128 + 128) % TWO_64 {
        SplitKeepsLaid(mem, before, k, n);
        SplitKeepsLive(mem, before, k, n);
        DividingSplits(mem, before, k, n);
        hide Divided;
        SplitBlock(current, n);
      } else {
        MarkKeepsLaid(mem, before, k, false);
        MarkKeepsLive(mem, before, k, false);
        WriteHeader(current, memory[current].(isFree := false));
      }
      blocks := Taken(before, k, n);
      p := base + 128 * (current + 1);
    }

    /** Writes the new header behind the payload, and links it in. */
    method SplitBlock(current: nat, n: nat)
      requires memory != null && CanSplit(memory[..], current, n)
      modifies memory
      ensures memory[..] == Divided(old(memory[..]), current, n, old(memory[..])[current],
        Behind(old(memory[..]), current))
    {
      var header, next := memory[current], current + 1 + n;
      WriteHeader(next, Header(header.size - 128 * n - 128, true, header.next, current));
      if header.next != NO_BLOCK {
        assert memory[..][header.next] == old(memory[..])[header.next];
        WriteHeader(header.next, memory[header.next].(prev := next));
      }
      WriteHeader(current, Header(128 * n, false, next, header.prev));
    }

    /** The header at `at` takes over the block of the header at `next`. */
    method Absorb(at: nat, next: nat)
      requires memory != null && CanAbsorb(memory[..], at, next)
      modifies memory
      ensures memory[..] == Absorbed(old(memory[..]), at, old(memory[..])[at], old(memory[..])[next],
        Behind(old(memory[..]), next))
    {
      var header, other := memory[at], memory[next];
      WriteHeader(at, Header(header.size + 128 + other.size, header.isFree, other.next, header.prev));
      if other.next != NO_BLOCK {
        assert memory[..][other.next] == old(memory[..])[other.next];
        WriteHeader(other.next, memory[other.next].(prev := at));
      }
    }

    method WriteHeader(at: nat, g: Granule)
      requires memory != null && at < memory.Length
      modifies memory
      ensures memory[..] == Put(old(memory[..]), at, g)
    {
      memory[at] := g;
    }

    /** Marks the block free and merges it with a free successor. */
    method MergeNext(current: nat, ghost i: nat)
      requires Valid() && memory != null && i < |blocks| && current == Start(blocks, i)
      modifies `blocks, memory
      ensures Laid(memory[..], blocks) && LiveUnchanged(old(memory[..]), memory[..], old(blocks))
      ensures blocks == MergedWithNext(old(blocks), i)
    {
      ghost var mem, before, marked := memory[..], blocks, Marked(blocks, i, true);
      ghost var mem1 := MarkedMemory(mem, before, i, true);
      assert HeaderAt(mem, before, i);
      MarkKeepsLaid(mem, before, i, true);
      MarkKeepsLive(mem, before, i, true);
      MarkKeepsStarts(before, i, true, i);
      assert HeaderAt(mem1, marked, i);
      if i + 1 < |before| {
        assert HeaderAt(mem1, marked, i + 1);
        AbsorbingMerges(mem1, marked, i);
        MergeKeepsLaid(mem1, marked, i);
        if i + 2 < |before| {
          MarkKeepsStarts(before, i, true, i + 2);
        }
        MergeKeepsLive(mem1, marked, i, before, i, i + 2);
        LiveUnchangedChains(mem, mem1, MergedMemory(mem1, marked, i), before);
      }
      hide Laid;
      hide LiveUnchanged;
      hide Coalesced;
      hide Start;
      hide CanAbsorb;
      hide Absorbed;
      WriteHeader(current, memory[current].(isFree := true));
      assert memory[..] == mem1;
      var next := memory[current].next;
      if next != NO_BLOCK && memory[next].isFree {
        Absorb(current, next);
      }
      blocks := MergedWithNext(before, i);
    }

    /** Merges the block, now free, into a free predecessor; `before` is the list before it was freed. */
    method MergePrev(current: nat, ghost i: nat, ghost before: seq<Block>)
      requires memory != null && i < |before| && blocks == MergedWithNext(before, i)
      requires Laid(memory[..], blocks) && current == Start(blocks, i)
      modifies `blocks, memory
      ensures Laid(memory[..], blocks) && LiveUnchanged(old(memory[..]), memory[..], before)
      ensures blocks == MergedIntoPrev(old(blocks), i)
    {
      ghost var mem, middle := memory[..], blocks;
      NothingChanged(memory, before);
      PrevCanMerge(mem, before, i);
      hide Laid;
      hide LiveUnchanged;
      hide Start;
      hide MergedWithNext;
      hide CanAbsorb;
      hide Absorbed;
      hide MergedMemory;
      var prev := memory[current].prev;
      if prev != NO_BLOCK && memory[prev].isFree {
        Absorb(prev, current);
      }
      blocks := MergedIntoPrev(middle, i);
    }

    /** Marks the block free and merges it with a free successor, then into a free predecessor; a pointer from
        outside goes back outside. `i` is the block the pointer belongs to. No live payload changes. */
    method Free(p: nat, ghost i: nat)
      requires Valid() && (p != 0 && memory != null && base <= p < base + totalSize ==>
        i < |blocks| && !blocks[i].isFree && p == AddressOf(i))
      modifies `blocks, memory
      ensures Valid() && (old(memory) != null ==> LiveUnchanged(old(memory[..]), memory[..], old(blocks)))
      ensures blocks ==
        if p != 0 && memory != null && base <= p < base + totalSize then Released(old(blocks), i) else old(blocks)
    {
      if p == 0 {
        NothingChanged(memory, blocks);
        return;
      }
      if memory != null && base <= p < base + totalSize {
        var current := (p - base) / 128 - 1;
        ghost var before := blocks;
        ghost var mem := memory[..];
        ReleasedKeepsCoalesced(before, i);
        MiddleStarts(before, i, i);
        hide Laid;
        hide LiveUnchanged;
        hide Coalesced;
        hide Start;
        hide MergedWithNext;
        hide MergedIntoPrev;
        MergeNext(current, i);
        ghost var middle := memory[..];
        MergePrev(current, i, before);
        LiveUnchangedChains(mem, middle, memory[..], before);
      } else {
        NothingChanged(memory, blocks);
      }
    }
  }

  // ----- what holds between any two operations -----

  /** Every pointer to a block of the list is aligned and lies strictly inside the buffer, so `Free` takes it to the
      list; the payload it points to ends inside the buffer. */
  lemma PointersAreInside(pad: Scratchpad, i: nat)
    requires pad.Valid() && pad.memory != null && i < |pad.blocks|
    ensures pad.AddressOf(i) % 128 == 0 && pad.base < pad.AddressOf(i) < pad.base + pad.totalSize
    ensures pad.AddressOf(i) + 128 * pad.blocks[i].size <= pad.base + pad.totalSize
  {
    var blocks := pad.blocks;
    StartGrows(blocks, i, |blocks|);
    if i < |blocks| - 1 {
      StartGrows(blocks, i, |blocks| - 1);
      StartGrows(blocks, |blocks| - 1, |blocks|);
    }
  }

  /** The payloads of two blocks do not overlap. */
  lemma PayloadsDoNotOverlap(pad: Scratchpad, i: nat, j: nat)
    requires i < j < |pad.blocks|
    ensures pad.AddressOf(i) + 128 * pad.blocks[i].size + 128 <= pad.AddressOf(j)
  {
    StartGrows(pad.blocks, i, j);
  }

  /** Headers and payloads together are the whole buffer, whatever was allocated and released. */
  lemma NothingIsLost(pad: Scratchpad)
    requires pad.Valid() && pad.memory != null
    ensures 128 * Start(pad.blocks, |pad.blocks|) == pad.totalSize
  {}

  /** Once every list allocation is released the list is the initial single block again. */
  lemma ReleasedIsInitial(pad: Scratchpad)
    requires pad.Valid() && pad.memory != null && forall i :: 0 <= i < |pad.blocks| ==> pad.blocks[i].isFree
    ensures pad.blocks == InitialBlocks(pad.totalSize)
  {
    AllFreeIsInitial(pad.blocks);
  }
}
