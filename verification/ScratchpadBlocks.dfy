/** The blocks of the scratchpad: `fixedpoint.h`, seen as a list of sizes and flags.

    The buffer is divided into granules of 128 bytes. A block is one granule for its header followed by its
    payload; sizes here count granules. */
module ScratchpadBlocks {
  import opened Bytes

  const NO_BLOCK := -1

  datatype Block = Block(size: nat, isFree: bool)

  /** What a granule holds. Links are granule numbers of other headers, sizes are in bytes. */
  datatype Granule = Header(size: nat, isFree: bool, next: int, prev: int) | Data(bytes: seq<byte>)

  /** The granule of the header of block `i`. */
  function Start(blocks: seq<Block>, i: nat): nat
    requires i <= |blocks|
  {
    if i == 0 then 0 else Start(blocks, i - 1) + 1 + blocks[i - 1].size
  }

  lemma {:induction false} StartGrows(blocks: seq<Block>, i: nat, j: nat)
    requires i < j <= |blocks|
    ensures Start(blocks, i) + 1 + blocks[i].size <= Start(blocks, j)
  {
    if i < j - 1 {
      StartGrows(blocks, i, j - 1);
    }
  }

  lemma StartsDiffer(blocks: seq<Block>, i: nat, j: nat)
    requires i <= |blocks| && j <= |blocks|
    ensures i == j <==> Start(blocks, i) == Start(blocks, j)
  {
    if i < j {
      StartGrows(blocks, i, j);
    } else if j < i {
      StartGrows(blocks, j, i);
    }
  }

  /** Blocks that agree up to `i` start at the same granules. */
  lemma {:induction false} StartOfPrefix(a: seq<Block>, b: seq<Block>, i: nat)
    requires i <= |a| && i <= |b| && a[..i] == b[..i]
    ensures Start(a, i) == Start(b, i)
  {
    if i > 0 {
      assert a[i - 1] == a[..i][i - 1] == b[i - 1];
      assert a[..i - 1] == a[..i][..i - 1] == b[..i - 1];
      StartOfPrefix(a, b, i - 1);
    }
  }

  /** Blocks that agree from `i` in one list and from `j` in the other, and start together there, go on together. */
  lemma {:induction false} StartOfSuffix(a: seq<Block>, b: seq<Block>, i: nat, j: nat, k: nat)
    requires i + k <= |a| && j + k <= |b| && a[i..] == b[j..] && Start(a, i) == Start(b, j)
    ensures Start(a, i + k) == Start(b, j + k)
  {
    if k > 0 {
      StartOfSuffix(a, b, i, j, k - 1);
      assert a[i + k - 1] == a[i..][k - 1] == b[j..][k - 1] == b[j + k - 1];
    }
  }

  // ----- the list in memory -----

  function NextOf(blocks: seq<Block>, i: nat): int
    requires i < |blocks|
  {
    if i + 1 < |blocks| then Start(blocks, i + 1) else NO_BLOCK
  }

  function PrevOf(blocks: seq<Block>, i: nat): int
    requires i < |blocks|
  {
    if i > 0 then Start(blocks, i - 1) else NO_BLOCK
  }

  function HeaderOf(blocks: seq<Block>, i: nat): (r: Granule)
    requires i < |blocks|
    ensures r.Header?
  {
    Header(128 * blocks[i].size, blocks[i].isFree, NextOf(blocks, i), PrevOf(blocks, i))
  }

  predicate HeaderAt(mem: seq<Granule>, blocks: seq<Block>, i: nat)
    requires i < |blocks|
  {
    Start(blocks, i) < |mem| && mem[Start(blocks, i)] == HeaderOf(blocks, i)
  }

  /** The blocks tile the memory in address order, and their headers link them both ways. */
  ghost predicate Laid(mem: seq<Granule>, blocks: seq<Block>) {
    && |blocks| > 0 && |mem| == Start(blocks, |blocks|)
    && forall i :: 0 <= i < |blocks| ==> HeaderAt(mem, blocks, i)
  }

  /** Granule `g` belongs to the payload of block `i`. */
  predicate InPayload(blocks: seq<Block>, i: nat, g: int)
    requires i < |blocks|
  {
    Start(blocks, i) + 1 <= g < Start(blocks, i) + 1 + blocks[i].size
  }

  /** Payloads are disjoint from each other and from all headers. */
  lemma PayloadsAreDisjoint(blocks: seq<Block>, i: nat, j: nat, g: int)
    requires i < |blocks| && j < |blocks| && InPayload(blocks, i, g)
    ensures g < Start(blocks, |blocks|) && g != Start(blocks, j)
    ensures InPayload(blocks, j, g) ==> i == j
  {
    StartGrows(blocks, i, |blocks|);
    if i < j {
      StartGrows(blocks, i, j);
    } else if j < i {
      StartGrows(blocks, j, i);
    }
  }

  /** Memory outside the given granules and the free payloads is as it was. */
  ghost predicate LiveUnchanged(before: seq<Granule>, after: seq<Granule>, blocks: seq<Block>) {
    |before| == |after| &&
    forall i, g :: 0 <= i < |blocks| && !blocks[i].isFree && InPayload(blocks, i, g) && 0 <= g < |before| ==>
        after[g] == before[g]
  }

  // ----- allocation and release on the list -----

  /** The first free block of at least `n` granules. */
  function FirstFit(blocks: seq<Block>, n: nat, from: nat): (r: Option<nat>)
    requires from <= |blocks|
    ensures match r
      case Some(i) => from <= i < |blocks| && blocks[i].isFree && blocks[i].size >= n && forall j :: from <= j < i ==>
          !(blocks[j].isFree && blocks[j].size >= n)
      case None => forall j :: from <= j < |blocks| ==> !(blocks[j].isFree && blocks[j].size >= n)
    decreases |blocks| - from
  {
    if from == |blocks| then None
    else if blocks[from].isFree && blocks[from].size >= n then Some(from)
    else FirstFit(blocks, n, from + 1)
  }

  /** Takes `n` granules of block `i`, leaving a free block behind when a header and one granule remain. */
  function Taken(blocks: seq<Block>, i: nat, n: nat): seq<Block>
    requires i < |blocks| && blocks[i].size >= n
  {
    if blocks[i].size >= n + 2
    then blocks[..i] + [Block(n, false), Block(blocks[i].size - n - 1, true)] + blocks[i + 1..]
    else Marked(blocks, i, false)
  }

  /** Blocks `i` and `i + 1` as one. */
  function Merge(blocks: seq<Block>, i: nat): seq<Block>
    requires i + 1 < |blocks|
  {
    blocks[..i] + [Block(blocks[i].size + 1 + blocks[i + 1].size, blocks[i].isFree)] + blocks[i + 2..]
  }

  function Marked(blocks: seq<Block>, i: nat, isFree: bool): seq<Block>
    requires i < |blocks|
  {
    blocks[i := blocks[i].(isFree := isFree)]
  }

  /** Marks block `i` free and merges it with a free successor. */
  function MergedWithNext(blocks: seq<Block>, i: nat): (r: seq<Block>)
    requires i < |blocks|
    ensures i < |r| <= |blocks|
  {
    if i + 1 < |blocks| && blocks[i + 1].isFree then Merge(Marked(blocks, i, true), i) else Marked(blocks, i, true)
  }

  /** Merges block `i` into a free predecessor. */
  function MergedIntoPrev(blocks: seq<Block>, i: nat): seq<Block>
    requires i < |blocks|
  {
    if i > 0 && blocks[i - 1].isFree then Merge(blocks, i - 1) else blocks
  }

  function Released(blocks: seq<Block>, i: nat): seq<Block>
    requires i < |blocks|
  {
    MergedIntoPrev(MergedWithNext(blocks, i), i)
  }

  // ----- what every run keeps -----

  /** Blocks `i` and `i + 1` are not both free. */
  predicate Apart(blocks: seq<Block>, i: int) {
    0 <= i < |blocks| - 1 ==> !(blocks[i].isFree && blocks[i + 1].isFree)
  }

  /** No two neighbours are free, and the last block has a payload. */
  ghost predicate Coalesced(blocks: seq<Block>) {
    (forall i :: Apart(blocks, i)) && (|blocks| > 0 ==> blocks[|blocks| - 1].size > 0)
  }

  lemma TakenKeepsCoalesced(blocks: seq<Block>, i: nat, n: nat)
    requires Coalesced(blocks) && i < |blocks| && blocks[i].isFree && blocks[i].size >= n
    ensures Coalesced(Taken(blocks, i, n))
  {
    var after := Taken(blocks, i, n);
    forall j
      ensures Apart(after, j)
    {
      assert Apart(blocks, j) && Apart(blocks, j - 1);
    }
  }

  /** Merging forwards leaves at most the new block and its predecessor both free. */
  lemma MergedWithNextIsApart(blocks: seq<Block>, i: nat)
    requires Coalesced(blocks) && i < |blocks|
    ensures var middle := MergedWithNext(blocks, i);
      && middle[i].isFree && middle[..i] == blocks[..i] && middle[|middle| - 1].size > 0
      && forall j :: j != i - 1 ==> Apart(middle, j)
  {
    var middle := MergedWithNext(blocks, i);
    var shift := |blocks| - |middle|;
    forall j | j != i - 1
      ensures Apart(middle, j)
    {
      assert Apart(blocks, j) && Apart(blocks, j + shift);
    }
  }

  lemma MergedIntoPrevIsApart(blocks: seq<Block>, i: nat, j: int)
    requires 0 < i < |blocks| && blocks[i - 1].isFree && blocks[i].isFree
      && (forall l :: l != i - 1 ==> Apart(blocks, l))
    ensures Apart(Merge(blocks, i - 1), j)
  {
    assert Apart(blocks, if j < i - 1 then j else j + 1);
  }

  lemma ReleasedKeepsCoalesced(blocks: seq<Block>, i: nat)
    requires Coalesced(blocks) && i < |blocks|
    ensures Coalesced(Released(blocks, i))
  {
    var middle := MergedWithNext(blocks, i);
    MergedWithNextIsApart(blocks, i);
    hide MergedWithNext;
    if i > 0 && middle[i - 1].isFree {
      var after := Merge(middle, i - 1);
      forall j
        ensures Apart(after, j)
      {
        MergedIntoPrevIsApart(middle, i, j);
      }
      assert i == |middle| - 1 || after[|after| - 1] == middle[|middle| - 1];
      assert Coalesced(after) && Released(blocks, i) == after;
    } else {
      assert Apart(middle, i - 1);
      assert Coalesced(middle) && Released(blocks, i) == middle;
    }
  }

  /** Once everything is released the list is the initial single block. */
  lemma AllFreeIsInitial(blocks: seq<Block>)
    requires Coalesced(blocks) && |blocks| > 0 && forall i :: 0 <= i < |blocks| ==> blocks[i].isFree
    ensures blocks == [Block(Start(blocks, |blocks|) - 1, true)]
  {
    assert Apart(blocks, 0);
    assert Start(blocks, 1) == Start(blocks, 0) + 1 + blocks[0].size;
  }

  // ----- the links after a change -----

  lemma MergeMovesStarts(blocks: seq<Block>, i: nat, k: nat)
    requires i + 1 < |blocks| && k <= |blocks| - 1
    ensures Start(Merge(blocks, i), k) == if k <= i then Start(blocks, k) else Start(blocks, k + 1)
  {
    var after := Merge(blocks, i);
    if k <= i {
      assert after[..k] == blocks[..k];
      StartOfPrefix(after, blocks, k);
    } else {
      assert after[..i] == blocks[..i];
      StartOfPrefix(after, blocks, i);
      assert Start(after, i + 1) == Start(blocks, i + 2);
      assert after[i + 1..] == blocks[i + 2..];
      StartOfSuffix(after, blocks, i + 1, i + 2, k - i - 1);
    }
  }

  /** The header of block `i` with another predecessor. */
  function Relinked(blocks: seq<Block>, i: nat, prev: int): Granule
    requires i < |blocks|
  {
    Header(128 * blocks[i].size, blocks[i].isFree, NextOf(blocks, i), prev)
  }

  /** The memory with another granule at `at`. */
  function Put(mem: seq<Granule>, at: int, g: Granule): (r: seq<Granule>)
    ensures |r| == |mem|
  {
    if 0 <= at < |mem| then mem[at := g] else mem
  }

  /** The header `h` at `at` absorbs the header `x`, whose successor is `behind`. */
  function Absorbed(mem: seq<Granule>, at: int, h: Granule, x: Granule, behind: Granule): (r: seq<Granule>)
    requires h.Header? && x.Header? && behind.Header?
    ensures |r| == |mem|
  {
    var grown := Put(mem, at, Header(h.size + 128 + x.size, h.isFree, x.next, h.prev));
    if x.next != NO_BLOCK then Put(grown, x.next, behind.(prev := at)) else grown
  }

  /** The header `h` at `at`, whose successor is `behind`, is divided behind `n` granules. */
  function Divided(mem: seq<Granule>, at: int, n: nat, h: Granule, behind: Granule): (r: seq<Granule>)
    requires h.Header? && h.size >= 128 * (n + 1) && behind.Header?
    ensures |r| == |mem|
  {
    var next := at + 1 + n;
    var linked := Put(mem, next, Header(h.size - 128 * n - 128, true, h.next, at));
    var relinked := if h.next != NO_BLOCK then Put(linked, h.next, behind.(prev := next)) else linked;
    Put(relinked, at, Header(128 * n, false, next, h.prev))
  }

  /** What dividing leaves at `x`. */
  lemma DividedAt(mem: seq<Granule>, at: nat, n: nat, h: Granule, behind: Granule, x: nat)
    requires h.Header? && h.size >= 128 * (n + 1) && behind.Header? && at + 1 + n < |mem| && x < |mem| && h.next != at
      && h.next != at + 1 + n
    ensures Divided(mem, at, n, h, behind)[x] ==
      if x == at then Header(128 * n, false, at + 1 + n, h.prev)
      else if x == at + 1 + n then Header(h.size - 128 * n - 128, true, h.next, at)
      else if x == h.next then behind.(prev := at + 1 + n)
      else mem[x]
  {}

  /** The memory after block `i` has absorbed block `i + 1`. */
  function MergedMemory(mem: seq<Granule>, blocks: seq<Block>, i: nat): (r: seq<Granule>)
    requires i + 1 < |blocks|
    ensures |r| == |mem|
  {
    Absorbed(mem, Start(blocks, i), HeaderOf(blocks, i), HeaderOf(blocks, i + 1),
             if i + 2 < |blocks| then HeaderOf(blocks, i + 2) else HeaderOf(blocks, i + 1))
  }

  /** The memory after the flag of block `i` has been set. */
  function MarkedMemory(mem: seq<Granule>, blocks: seq<Block>, i: nat, isFree: bool): (r: seq<Granule>)
    requires i < |blocks|
    ensures |r| == |mem|
  {
    Put(mem, Start(blocks, i), Header(128 * blocks[i].size, isFree, NextOf(blocks, i), PrevOf(blocks, i)))
  }

  /** The memory after block `i` has been split behind `n` granules. */
  function SplitMemory(mem: seq<Granule>, blocks: seq<Block>, i: nat, n: nat): (r: seq<Granule>)
    requires i < |blocks| && blocks[i].size >= n + 1
    ensures |r| == |mem|
  {
    Divided(mem, Start(blocks, i), n, HeaderOf(blocks, i),
      if i + 1 < |blocks| then HeaderOf(blocks, i + 1) else HeaderOf(blocks, i))
  }

  lemma MergedLinks(blocks: seq<Block>, i: nat, k: nat)
    requires i + 1 < |blocks| && k < |blocks| - 1
    ensures var after := Merge(blocks, i);
      HeaderOf(after, k) ==
        if k == i then Header(128 * (blocks[i].size + 1 + blocks[i + 1].size), blocks[i].isFree, NextOf(blocks, i + 1),
            PrevOf(blocks, i))
        else if k == i + 1 then Relinked(blocks, k + 1, Start(blocks, i))
        else HeaderOf(blocks, if k < i then k else k + 1)
  {
    hide Start;
    var after := Merge(blocks, i);
    MergeMovesStarts(blocks, i, k + 1);
    if k > 0 {
      MergeMovesStarts(blocks, i, k - 1);
    }
    assert |after| == |blocks| - 1;
    assert k != i ==> after[k] == blocks[if k < i then k else k + 1];
  }

  lemma MergedHeader(mem: seq<Granule>, blocks: seq<Block>, i: nat, k: nat)
    requires Laid(mem, blocks) && i + 1 < |blocks| && k < |blocks| - 1
    ensures var after := Merge(blocks, i);
      HeaderAt(MergedMemory(mem, blocks, i), after, k)
  {
    hide Start;
    var was := if k <= i then k else k + 1;
    assert HeaderAt(mem, blocks, was);
    MergeMovesStarts(blocks, i, k);
    MergedLinks(blocks, i, k);
    hide Merge;
    hide HeaderOf;
    hide Relinked;
    StartsDiffer(blocks, was, i);
    if i + 2 < |blocks| {
      StartsDiffer(blocks, was, i + 2);
      StartsDiffer(blocks, i, i + 2);
    }
  }

  lemma MergeKeepsLaid(mem: seq<Granule>, blocks: seq<Block>, i: nat)
    requires Laid(mem, blocks) && i + 1 < |blocks|
    ensures Laid(MergedMemory(mem, blocks, i), Merge(blocks, i))
  {
    hide Start;
    hide HeaderAt;
    MergeMovesStarts(blocks, i, |blocks| - 1);
    forall k | 0 <= k < |Merge(blocks, i)|
      ensures HeaderAt(MergedMemory(mem, blocks, i), Merge(blocks, i), k)
    {
      MergedHeader(mem, blocks, i, k);
    }
  }

  lemma MarkedHeader(mem: seq<Granule>, blocks: seq<Block>, i: nat, isFree: bool, k: nat)
    requires Laid(mem, blocks) && i < |blocks| && k < |blocks|
    ensures HeaderAt(MarkedMemory(mem, blocks, i, isFree), Marked(blocks, i, isFree), k)
  {
    hide Start;
    assert HeaderAt(mem, blocks, k);
    MarkKeepsStarts(blocks, i, isFree, k);
    MarkKeepsStarts(blocks, i, isFree, k + 1);
    if k > 0 {
      MarkKeepsStarts(blocks, i, isFree, k - 1);
    }
    StartsDiffer(blocks, i, k);
  }

  lemma MarkKeepsLaid(mem: seq<Granule>, blocks: seq<Block>, i: nat, isFree: bool)
    requires Laid(mem, blocks) && i < |blocks|
    ensures Laid(MarkedMemory(mem, blocks, i, isFree), Marked(blocks, i, isFree))
  {
    hide Start;
    hide HeaderAt;
    MarkKeepsStarts(blocks, i, isFree, |blocks|);
    forall k | 0 <= k < |blocks|
      ensures HeaderAt(MarkedMemory(mem, blocks, i, isFree), Marked(blocks, i, isFree), k)
    {
      MarkedHeader(mem, blocks, i, isFree, k);
    }
  }

  lemma {:induction false} MarkKeepsStarts(blocks: seq<Block>, i: nat, isFree: bool, k: nat)
    requires i < |blocks| && k <= |blocks|
    ensures Start(Marked(blocks, i, isFree), k) == Start(blocks, k)
  {
    if k > 0 {
      MarkKeepsStarts(blocks, i, isFree, k - 1);
    }
  }

  lemma SplitFits(mem: seq<Granule>, blocks: seq<Block>, i: nat, n: nat)
    requires Laid(mem, blocks) && i < |blocks| && blocks[i].size >= n + 1
    ensures Start(blocks, i) + 1 + n < |mem|
  {
    StartGrows(blocks, i, |blocks|);
  }

  /** The new header is no old one. */
  lemma SplitIsNew(blocks: seq<Block>, i: nat, n: nat, j: nat)
    requires i < |blocks| && blocks[i].size >= n + 2 && j < |blocks|
    ensures Start(blocks, j) != Start(blocks, i) + 1 + n
  {
    if j < i {
      StartGrows(blocks, j, i);
    } else if i < j {
      StartGrows(blocks, i, j);
    }
  }

  lemma TakenAt(blocks: seq<Block>, i: nat, n: nat, k: nat)
    requires i < |blocks| && blocks[i].size >= n + 2 && k < |blocks| + 1
    ensures |Taken(blocks, i, n)| == |blocks| + 1
    ensures Taken(blocks, i, n)[k] ==
      if k == i then Block(n, false) else if k == i + 1 then Block(blocks[i].size - n - 1, true)
          else blocks[if k < i then k else k - 1]
  {}

  lemma FarLinks(blocks: seq<Block>, i: nat, n: nat, k: nat)
    requires i < |blocks| && blocks[i].size >= n + 2 && k < |blocks| + 1 && (k < i || k > i + 2)
    ensures |Taken(blocks, i, n)| == |blocks| + 1
      && HeaderOf(Taken(blocks, i, n), k) == HeaderOf(blocks, if k < i then k else k - 1)
  {
    TakenAt(blocks, i, n, k);
    hide Start;
    hide Taken;
    SplitMovesStarts(blocks, i, n, k + 1);
    if k > 0 {
      SplitMovesStarts(blocks, i, n, k - 1);
    }
  }

  /** What splitting leaves at `x`. */
  lemma SplitAt(mem: seq<Granule>, blocks: seq<Block>, i: nat, n: nat, x: nat)
    requires Laid(mem, blocks) && i < |blocks| && blocks[i].size >= n + 2 && x < |mem|
    ensures SplitMemory(mem, blocks, i, n)[x] ==
      if x == Start(blocks, i) then Header(128 * n, false, Start(blocks, i) + 1 + n, PrevOf(blocks, i))
      else if x == Start(blocks, i) + 1 + n then
          Header(128 * (blocks[i].size - n - 1), true, NextOf(blocks, i), Start(blocks, i))
      else if i + 1 < |blocks| && x == Start(blocks, i + 1) then Relinked(blocks, i + 1, Start(blocks, i) + 1 + n)
      else mem[x]
  {
    SplitFits(mem, blocks, i, n);
    if i + 1 < |blocks| {
      StartsDiffer(blocks, i, i + 1);
      SplitIsNew(blocks, i, n, i + 1);
    }
    DividedAt(mem, Start(blocks, i), n, HeaderOf(blocks, i),
      if i + 1 < |blocks| then HeaderOf(blocks, i + 1) else HeaderOf(blocks, i), x);
    hide Start;
    hide Divided;
    hide Laid;
  }

  /** Away from the split the headers are old ones. */
  lemma SplitFarHeader(mem: seq<Granule>, blocks: seq<Block>, i: nat, n: nat, k: nat)
    requires Laid(mem, blocks) && i < |blocks| && blocks[i].size >= n + 2 && k < |blocks| + 1 && (k < i || k > i + 2)
    ensures |Taken(blocks, i, n)| == |blocks| + 1 && HeaderAt(SplitMemory(mem, blocks, i, n), Taken(blocks, i, n), k)
  {
    TakenAt(blocks, i, n, k);
    hide Start;
    hide Taken;
    hide HeaderOf;
    hide SplitMemory;
    var was := if k < i then k else k - 1;
    assert HeaderAt(mem, blocks, was);
    SplitMovesStarts(blocks, i, n, k);
    FarLinks(blocks, i, n, k);
    SplitAt(mem, blocks, i, n, Start(blocks, was));
    hide Laid;
    SplitIsNew(blocks, i, n, was);
    StartsDiffer(blocks, was, i);
    if i + 1 < |blocks| {
      StartsDiffer(blocks, was, i + 1);
    }
  }

  lemma ShrunkLinks(blocks: seq<Block>, i: nat, n: nat)
    requires i < |blocks| && blocks[i].size >= n + 2
    ensures |Taken(blocks, i, n)| == |blocks| + 1
    ensures HeaderOf(Taken(blocks, i, n), i) == Header(128 * n, false, Start(blocks, i) + 1 + n, PrevOf(blocks, i))
  {
    TakenAt(blocks, i, n, i);
    hide Start;
    hide Taken;
    SplitMovesStarts(blocks, i, n, i + 1);
    if i > 0 {
      SplitMovesStarts(blocks, i, n, i - 1);
    }
  }

  lemma RestLinks(blocks: seq<Block>, i: nat, n: nat)
    requires i < |blocks| && blocks[i].size >= n + 2
    ensures |Taken(blocks, i, n)| == |blocks| + 1
    ensures HeaderOf(Taken(blocks, i, n), i + 1) == Header(128 * (blocks[i].size - n - 1), true, NextOf(blocks, i),
      Start(blocks, i))
  {
    TakenAt(blocks, i, n, i + 1);
    hide Start;
    hide Taken;
    SplitMovesStarts(blocks, i, n, i + 2);
    SplitMovesStarts(blocks, i, n, i);
  }

  lemma BehindLinks(blocks: seq<Block>, i: nat, n: nat)
    requires i + 1 < |blocks| && blocks[i].size >= n + 2
    ensures |Taken(blocks, i, n)| == |blocks| + 1
    ensures HeaderOf(Taken(blocks, i, n), i + 2) == Relinked(blocks, i + 1, Start(blocks, i) + 1 + n)
  {
    hide Start;
    hide Taken;
    TakenAt(blocks, i, n, i + 2);
    SplitMovesStarts(blocks, i, n, i + 1);
    if i + 2 < |blocks| {
      SplitMovesStarts(blocks, i, n, i + 3);
    }
  }

  /** At the split, and behind it, are the header that shrank, the new one and the one behind with its link back. */
  lemma SplitNearHeader(mem: seq<Granule>, blocks: seq<Block>, i: nat, n: nat, k: nat)
    requires Laid(mem, blocks) && i < |blocks| && blocks[i].size >= n + 2 && k < |blocks| + 1 && i <= k <= i + 2
    ensures |Taken(blocks, i, n)| == |blocks| + 1 && HeaderAt(SplitMemory(mem, blocks, i, n), Taken(blocks, i, n), k)
  {
    SplitFits(mem, blocks, i, n);
    hide Start;
    hide Taken;
    hide HeaderOf;
    hide Relinked;
    hide SplitMemory;
    SplitMovesStarts(blocks, i, n, k);
    if k == i {
      ShrunkLinks(blocks, i, n);
      SplitAt(mem, blocks, i, n, Start(blocks, i));
    } else if k == i + 1 {
      RestLinks(blocks, i, n);
      SplitAt(mem, blocks, i, n, Start(blocks, i) + 1 + n);
    } else {
      assert HeaderAt(mem, blocks, i + 1);
      BehindLinks(blocks, i, n);
      StartsDiffer(blocks, i, i + 1);
      SplitIsNew(blocks, i, n, i + 1);
      SplitAt(mem, blocks, i, n, Start(blocks, i + 1));
    }
  }

  lemma SplitKeepsLaid(mem: seq<Granule>, blocks: seq<Block>, i: nat, n: nat)
    requires Laid(mem, blocks) && i < |blocks| && blocks[i].size >= n + 2
    ensures Laid(SplitMemory(mem, blocks, i, n), Taken(blocks, i, n))
  {
    hide Start;
    hide HeaderAt;
    var after := Taken(blocks, i, n);
    SplitMovesStarts(blocks, i, n, |after|);
    forall k | 0 <= k < |after|
      ensures HeaderAt(SplitMemory(mem, blocks, i, n), after, k)
    {
      if i <= k <= i + 2 {
        SplitNearHeader(mem, blocks, i, n, k);
      } else {
        SplitFarHeader(mem, blocks, i, n, k);
      }
    }
  }

  lemma SplitMovesStarts(blocks: seq<Block>, i: nat, n: nat, k: nat)
    requires i < |blocks| && blocks[i].size >= n + 2 && k <= |blocks| + 1
    ensures Start(Taken(blocks, i, n), k) ==
      if k <= i then Start(blocks, k) else if k == i + 1 then Start(blocks, i) + 1 + n else Start(blocks, k - 1)
  {
    var after := Taken(blocks, i, n);
    if k <= i {
      assert after[..k] == blocks[..k];
      StartOfPrefix(after, blocks, k);
    } else {
      assert after[..i] == blocks[..i];
      StartOfPrefix(after, blocks, i);
      assert Start(after, i + 1) == Start(blocks, i) + 1 + n;
      if k > i + 1 {
        assert Start(after, i + 2) == Start(blocks, i + 1);
        assert after[i + 2..] == blocks[i + 1..];
        StartOfSuffix(after, blocks, i + 2, i + 1, k - i - 2);
      }
    }
  }

  // ----- live payloads -----

  /** Writing a header, or into a free payload, leaves the live payloads alone. */
  lemma PutKeepsLive(mem: seq<Granule>, blocks: seq<Block>, at: int, g: Granule, j: nat)
    requires j < |blocks| && (at == Start(blocks, j) || (blocks[j].isFree && InPayload(blocks, j, at)))
    ensures LiveUnchanged(mem, Put(mem, at, g), blocks)
  {
    forall i, x | 0 <= i < |blocks| && !blocks[i].isFree && InPayload(blocks, i, x) && 0 <= x < |mem|
      ensures Put(mem, at, g)[x] == mem[x]
    {
      PayloadsAreDisjoint(blocks, i, j, x);
    }
  }

  lemma LiveUnchangedChains(a: seq<Granule>, b: seq<Granule>, c: seq<Granule>, blocks: seq<Block>)
    requires LiveUnchanged(a, b, blocks) && LiveUnchanged(b, c, blocks)
    ensures LiveUnchanged(a, c, blocks)
  {}

  lemma SplitKeepsLive(mem: seq<Granule>, blocks: seq<Block>, i: nat, n: nat)
    requires i < |blocks| && blocks[i].isFree && blocks[i].size >= n + 2
    ensures LiveUnchanged(mem, SplitMemory(mem, blocks, i, n), blocks)
  {
    var at, rest := Start(blocks, i), Start(blocks, i) + 1 + n;
    var linked := Put(mem, rest, Header(128 * (blocks[i].size - n - 1), true, NextOf(blocks, i), at));
    var relinked :=
      if i + 1 < |blocks| then Put(linked, Start(blocks, i + 1), Relinked(blocks, i + 1, rest)) else linked;
    PutKeepsLive(mem, blocks, rest, Header(128 * (blocks[i].size - n - 1), true, NextOf(blocks, i), at), i);
    if i + 1 < |blocks| {
      PutKeepsLive(linked, blocks, Start(blocks, i + 1), Relinked(blocks, i + 1, rest), i + 1);
    }
    PutKeepsLive(relinked, blocks, at, Header(128 * n, false, rest, PrevOf(blocks, i)), i);
    hide LiveUnchanged;
    if i + 1 < |blocks| {
      LiveUnchangedChains(mem, linked, relinked, blocks);
    }
    LiveUnchangedChains(mem, relinked, SplitMemory(mem, blocks, i, n), blocks);
  }

  /** Merging two blocks of one list leaves the live payloads of another alone, if their headers are headers there
      too. */
  lemma MergeKeepsLive(mem: seq<Granule>, now: seq<Block>, i: nat, blocks: seq<Block>, j: nat, k: nat)
    requires i + 1 < |now| && j < |blocks| && Start(now, i) == Start(blocks, j)
    requires i + 2 < |now| ==> k < |blocks| && Start(now, i + 2) == Start(blocks, k)
    ensures LiveUnchanged(mem, MergedMemory(mem, now, i), blocks)
  {
    var g := Header(128 * (now[i].size + 1 + now[i + 1].size), now[i].isFree, NextOf(now, i + 1), PrevOf(now, i));
    var grown := Put(mem, Start(now, i), g);
    PutKeepsLive(mem, blocks, Start(now, i), g, j);
    if i + 2 < |now| {
      PutKeepsLive(grown, blocks, Start(now, i + 2), Relinked(now, i + 2, Start(now, i)), k);
      hide LiveUnchanged;
      LiveUnchangedChains(mem, grown, MergedMemory(mem, now, i), blocks);
    }
  }

  /** Where the blocks start after the first merge. */
  lemma MiddleStarts(blocks: seq<Block>, i: nat, k: nat)
    requires i < |blocks| && k <= |MergedWithNext(blocks, i)|
    ensures Start(MergedWithNext(blocks, i), k) ==
      if k <= i then Start(blocks, k) else Start(blocks, k + |blocks| - |MergedWithNext(blocks, i)|)
  {
    var marked := Marked(blocks, i, true);
    MarkKeepsStarts(blocks, i, true, k);
    if i + 1 < |blocks| && blocks[i + 1].isFree {
      assert |Merge(marked, i)| == |blocks| - 1;
      MergeMovesStarts(marked, i, k);
      MarkKeepsStarts(blocks, i, true, k + 1);
    }
  }

  // ----- what the source finds in memory -----

  /** Both are headers, and the link that will change leads to a third. */
  predicate CanAbsorb(mem: seq<Granule>, at: int, next: int) {
    && 0 <= at < |mem| && mem[at].Header? && 0 <= next < |mem| && mem[next].Header?
    && (mem[next].next == NO_BLOCK
        || (0 <= mem[next].next < |mem| && mem[mem[next].next].Header? && mem[next].next != at))
  }

  /** The successor of the header at `at`, or some header if it has none. */
  function Behind(mem: seq<Granule>, at: int): (r: Granule)
    requires 0 <= at < |mem| && mem[at].Header?
      && (mem[at].next == NO_BLOCK || (0 <= mem[at].next < |mem| && mem[mem[at].next].Header?))
    ensures r.Header?
  {
    if mem[at].next == NO_BLOCK then mem[at] else mem[mem[at].next]
  }

  lemma AbsorbingMerges(mem: seq<Granule>, blocks: seq<Block>, i: nat)
    requires Laid(mem, blocks) && i + 1 < |blocks|
    ensures var at, next := Start(blocks, i), Start(blocks, i + 1);
      CanAbsorb(mem, at, next)
          && Absorbed(mem, at, mem[at], mem[next], Behind(mem, next)) == MergedMemory(mem, blocks, i)
  {
    hide Start;
    assert HeaderAt(mem, blocks, i) && HeaderAt(mem, blocks, i + 1);
    if i + 2 < |blocks| {
      assert HeaderAt(mem, blocks, i + 2);
      StartsDiffer(blocks, i, i + 2);
    }
    hide Laid;
    hide Absorbed;
  }

  predicate CanSplit(mem: seq<Granule>, at: int, n: nat) {
    && 0 <= at < |mem| && mem[at].Header? && at + 1 + n < |mem| && mem[at].size >= 128 * (n + 1)
    && (mem[at].next == NO_BLOCK
        || (0 <= mem[at].next < |mem| && mem[mem[at].next].Header? && mem[at].next != at + 1 + n))
  }

  lemma DividingSplits(mem: seq<Granule>, blocks: seq<Block>, i: nat, n: nat)
    requires Laid(mem, blocks) && i < |blocks| && blocks[i].size >= n + 2
    ensures var at := Start(blocks, i);
      CanSplit(mem, at, n) && Divided(mem, at, n, mem[at], Behind(mem, at)) == SplitMemory(mem, blocks, i, n)
  {
    SplitFits(mem, blocks, i, n);
    hide Start;
    assert HeaderAt(mem, blocks, i);
    if i + 1 < |blocks| {
      assert HeaderAt(mem, blocks, i + 1);
      SplitIsNew(blocks, i, n, i + 1);
    }
    hide Laid;
    hide Divided;
  }
}
