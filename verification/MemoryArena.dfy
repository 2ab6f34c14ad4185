/** Offset assignment inside one shared buffer: `simple_memory_arena.cc`.

  An arena hands out offsets to tensors that are alive over an interval of execution-plan nodes.
  Two tensors may share bytes exactly when their intervals do not intersect. `Place` is the offset
  the gap scan chooses, written as a fold over the active allocations; the class below reaches it
  with the loop of the original, early exit included. */
module MemoryArena {
  import opened Arithmetic

  import opened Bytes

  /** An allocation with its usage interval; `tensor == -1` marks an entry for deletion. */
  datatype Alloc = Alloc(offset: nat, size: nat, tensor: int, firstNode: int, lastNode: int)

  const NO_ALLOC := Alloc(0, 0, -1, -1, -1)

  function AlignTo(alignment: nat, offset: nat): (r: nat)
    requires alignment > 0
    ensures r % alignment == 0
    ensures offset <= r < offset + alignment
  {
    AlignToIsMultiple(alignment, offset);
    if offset % alignment == 0 then offset else offset + (alignment - offset % alignment)
  }

  lemma AlignToIsMultiple(alignment: nat, offset: nat)
    requires alignment > 0
    ensures (offset + (alignment - offset % alignment)) % alignment == 0
  {
    var q := offset / alignment;
    DivisionIsUnique(offset + (alignment - offset % alignment), alignment, q + 1, 0);
  }

  lemma AlignToIsLeast(alignment: nat, offset: nat, x: nat)
    requires alignment > 0 && offset <= x && x % alignment == 0
    ensures AlignTo(alignment, offset) <= x
  {
    if offset % alignment != 0 {
      NextMultiple(alignment, offset / alignment, x);
    }
  }

  lemma NextMultiple(alignment: nat, q: nat, x: nat)
    requires alignment > 0 && x % alignment == 0 && alignment * q < x
    ensures alignment * (q + 1) <= x
  {
    var d := x / alignment;
    assert x == alignment * d;
    if d <= q {
      ProductGrows(d, q, alignment);
    } else {
      ProductGrows(q + 1, d, alignment);
    }
  }

  predicate Intersects(a: Alloc, first: int, last: int) {
    !(a.lastNode < first || a.firstNode > last)
  }

  predicate Apart(offset: nat, size: nat, a: Alloc) {
    offset + size <= a.offset || a.offset + a.size <= offset
  }

  predicate Sorted(s: seq<Alloc>) {
    forall i, j :: 0 <= i < j < |s| ==> s[i].offset <= s[j].offset
  }

  // ----- the gap scan -----

  datatype Hole = Hole(offset: nat, fit: nat)

  datatype Scan = Scan(current: nat, best: Option<Hole>)

  function ScanStep(s: Scan, a: Alloc, alignment: nat, size: nat, first: int, last: int): Scan
    requires alignment > 0
  {
    if !Intersects(a, first, last) then s
    else
      var aligned := AlignTo(alignment, s.current);
      var takes := aligned + size <= a.offset && (s.best.None? || a.offset - aligned < s.best.value.fit);
      Scan(Max(s.current, a.offset + a.size), if takes then Some(Hole(aligned, a.offset - s.current)) else s.best)
  }

  function ScanAll(allocs: seq<Alloc>, alignment: nat, size: nat, first: int, last: int): Scan
    requires alignment > 0
  {
    if allocs == [] then Scan(0, None)
    else ScanStep(ScanAll(allocs[..|allocs| - 1], alignment, size, first, last), allocs[|allocs| - 1], alignment, size,
        first, last)
  }

  /** The offset given to a tensor of `size` bytes alive over [first, last]. */
  function Place(allocs: seq<Alloc>, alignment: nat, size: nat, first: int, last: int): nat
    requires alignment > 0
  {
    var s := ScanAll(allocs, alignment, size, first, last);
    if s.best.Some? then s.best.value.offset else AlignTo(alignment, s.current)
  }

  /** `current` is the end of the conflicting allocations scanned so far. */
  lemma {:induction false} ScanCurrent(allocs: seq<Alloc>, alignment: nat, size: nat, first: int, last: int, i: nat)
    requires alignment > 0 && i < |allocs| && Intersects(allocs[i], first, last)
    ensures allocs[i].offset + allocs[i].size <= ScanAll(allocs, alignment, size, first, last).current
  {
    if i < |allocs| - 1 {
      ScanCurrent(allocs[..|allocs| - 1], alignment, size, first, last, i);
    }
  }

  /** A chosen hole is aligned, ends before some conflicting allocation and meets no conflicting one. */
  lemma {:induction false} ScanHole(allocs: seq<Alloc>, alignment: nat, size: nat, first: int, last: int)
    requires alignment > 0 && Sorted(allocs)
    ensures var s := ScanAll(allocs, alignment, size, first, last);
      s.best.Some? ==>
        && s.best.value.offset % alignment == 0
        && (forall i :: 0 <= i < |allocs| && Intersects(allocs[i], first, last) ==>
              Apart(s.best.value.offset, size, allocs[i]))
        && (exists i :: 0 <= i < |allocs| && Intersects(allocs[i], first, last)
              && s.best.value.offset + size <= allocs[i].offset)
  {
    if allocs != [] {
      var n := |allocs| - 1;
      var before := allocs[..n];
      ScanHole(before, alignment, size, first, last);
      var s0 := ScanAll(before, alignment, size, first, last);
      var s := ScanAll(allocs, alignment, size, first, last);
      if s.best.Some? {
        if s.best == s0.best {
          var k :| 0 <= k < n && Intersects(before[k], first, last) && s.best.value.offset + size <= before[k].offset;
          assert allocs[k] == before[k];
          assert allocs[k].offset <= allocs[n].offset;
          forall i | 0 <= i < |allocs| && Intersects(allocs[i], first, last)
            ensures Apart(s.best.value.offset, size, allocs[i])
          {
            if i < n { assert before[i] == allocs[i]; }
          }
        } else {
          forall i | 0 <= i < n && Intersects(allocs[i], first, last)
            ensures Apart(s.best.value.offset, size, allocs[i])
          {
            assert before[i] == allocs[i];
            ScanCurrent(before, alignment, size, first, last, i);
          }
          assert s.best.value.offset + size <= allocs[n].offset;
        }
      }
    }
  }

  /** While no hole has been taken, no aligned free range starts before `current`. */
  lemma {:induction false} ScanNoHole(allocs: seq<Alloc>, alignment: nat, size: nat, first: int, last: int, x: nat)
    requires alignment > 0 && x % alignment == 0
    requires ScanAll(allocs, alignment, size, first, last).best.None?
    requires forall i :: 0 <= i < |allocs| && Intersects(allocs[i], first, last) ==> Apart(x, size, allocs[i])
    ensures ScanAll(allocs, alignment, size, first, last).current <= x
  {
    if allocs != [] {
      var n := |allocs| - 1;
      var before := allocs[..n];
      forall i | 0 <= i < n && Intersects(before[i], first, last)
        ensures Apart(x, size, before[i])
      {
        assert before[i] == allocs[i];
      }
      ScanNoHole(before, alignment, size, first, last, x);
      AlignToIsLeast(alignment, ScanAll(before, alignment, size, first, last).current, x);
    }
  }

  /** The chosen range is aligned and disjoint from every active allocation alive at a common node,
      whether or not the active allocations overlap one another. */
  lemma PlaceIsSafe(allocs: seq<Alloc>, alignment: nat, size: nat, first: int, last: int)
    requires alignment > 0 && Sorted(allocs)
    ensures Place(allocs, alignment, size, first, last) % alignment == 0
    ensures forall i :: 0 <= i < |allocs| && Intersects(allocs[i], first, last) ==>
      Apart(Place(allocs, alignment, size, first, last), size, allocs[i])
  {
    ScanHole(allocs, alignment, size, first, last);
    forall i | 0 <= i < |allocs| && Intersects(allocs[i], first, last)
      ensures Apart(Place(allocs, alignment, size, first, last), size, allocs[i])
    {
      ScanCurrent(allocs, alignment, size, first, last, i);
    }
  }

  /** The tensor goes past every conflicting allocation only when no aligned range before or between
      them is free, and then at the first aligned offset there: no free aligned offset is smaller. */
  lemma PlacePastTheEndOnlyIfNoHoleFits(allocs: seq<Alloc>, alignment: nat, size: nat, first: int, last: int, x: nat)
    requires alignment > 0 && Sorted(allocs) && size > 0
    requires forall i :: 0 <= i < |allocs| && Intersects(allocs[i], first, last) ==>
      allocs[i].offset + allocs[i].size <= Place(allocs, alignment, size, first, last)
    requires x % alignment == 0
    requires forall i :: 0 <= i < |allocs| && Intersects(allocs[i], first, last) ==> Apart(x, size, allocs[i])
    ensures Place(allocs, alignment, size, first, last) <= x
  {
    ScanHole(allocs, alignment, size, first, last);
    if ScanAll(allocs, alignment, size, first, last).best.None? {
      ScanNoHole(allocs, alignment, size, first, last, x);
      AlignToIsLeast(alignment, ScanAll(allocs, alignment, size, first, last).current, x);
    }
  }

  // ----- the sorted list of active allocations -----

  /** Index after the last entry whose offset is at most `offset`. */
  function UpperBound(s: seq<Alloc>, offset: nat): (i: nat)
    requires Sorted(s)
    ensures i <= |s|
    ensures forall j :: 0 <= j < i ==> s[j].offset <= offset
    ensures forall j :: i <= j < |s| ==> offset < s[j].offset
  {
    if s == [] || s[|s| - 1].offset <= offset then |s| else UpperBound(s[..|s| - 1], offset)
  }

  function Insert(s: seq<Alloc>, a: Alloc): (r: seq<Alloc>)
    requires Sorted(s)
    ensures Sorted(r)
  {
    var i := UpperBound(s, a.offset);
    s[..i] + [a] + s[i..]
  }

  /** The entries still alive at `node` or later. */
  function AliveFrom(s: seq<Alloc>, node: int): (r: seq<Alloc>)
    ensures Sorted(s) ==> Sorted(r)
    ensures Sorted(s) && r != [] ==> s != [] && r[|r| - 1].offset <= s[|s| - 1].offset
  {
    if s == [] then []
    else
      var front := AliveFrom(s[..|s| - 1], node);
      var a := s[|s| - 1];
      if node <= a.lastNode then front + [a] else front
  }

  lemma {:induction false} AliveFromMembers(s: seq<Alloc>, node: int, a: Alloc)
    ensures a in AliveFrom(s, node) <==> a in s && node <= a.lastNode
  {
    if s != [] {
      var front, b := s[..|s| - 1], s[|s| - 1];
      assert s == front + [b];
      AliveFromMembers(front, node, a);
    }
  }

  lemma {:induction false} AliveFromAppend(s: seq<Alloc>, t: seq<Alloc>, node: int)
    ensures AliveFrom(s + t, node) == AliveFrom(s, node) + AliveFrom(t, node)
  {
    if t == [] {
      assert s + t == s;
    } else {
      assert (s + t)[..|s + t| - 1] == s + t[..|t| - 1];
      AliveFromAppend(s, t[..|t| - 1], node);
    }
  }

  lemma AliveFromSingle(a: Alloc, node: int)
    ensures AliveFrom([a], node) == if node <= a.lastNode then [a] else []
  {
    assert [a][..0] == [];
  }

  lemma {:induction false} AliveFromIdempotent(s: seq<Alloc>, node: int)
    ensures AliveFrom(AliveFrom(s, node), node) == AliveFrom(s, node)
  {
    if s != [] {
      var front, a := s[..|s| - 1], s[|s| - 1];
      AliveFromIdempotent(front, node);
      AliveFromAppend(AliveFrom(front, node), [a], node);
      AliveFromSingle(a, node);
    }
  }

  lemma {:induction false} UpperBoundUnique(s: seq<Alloc>, offset: nat, k: nat)
    requires Sorted(s) && k <= |s|
    requires forall j :: 0 <= j < k ==> s[j].offset <= offset
    requires forall j :: k <= j < |s| ==> offset < s[j].offset
    ensures UpperBound(s, offset) == k
  {
    if s != [] && offset < s[|s| - 1].offset {
      UpperBoundUnique(s[..|s| - 1], offset, k);
    }
  }

  lemma InsertMembers(s: seq<Alloc>, a: Alloc, b: Alloc)
    requires Sorted(s)
    ensures b in Insert(s, a) <==> b == a || b in s
  {
    var i := UpperBound(s, a.offset);
    assert s == s[..i] + s[i..];
  }

  lemma AliveFromInsert(s: seq<Alloc>, a: Alloc, node: int)
    requires Sorted(s)
    ensures AliveFrom(Insert(s, a), node) ==
      if node <= a.lastNode then Insert(AliveFrom(s, node), a) else AliveFrom(s, node)
  {
    var i := UpperBound(s, a.offset);
    var l, r := s[..i], s[i..];
    assert s == l + r;
    AliveFromAppend(l, [a], node);
    AliveFromAppend(l + [a], r, node);
    AliveFromAppend(l, r, node);
    AliveFromSingle(a, node);
    if node <= a.lastNode {
      InsertAlive(s, l, r, a, node);
    }
  }

  predicate AtMost(s: seq<Alloc>, offset: nat) { forall k :: 0 <= k < |s| ==> s[k].offset <= offset }

  predicate Above(s: seq<Alloc>, offset: nat) { forall k :: 0 <= k < |s| ==> offset < s[k].offset }

  lemma {:induction false} AliveFromBounds(s: seq<Alloc>, node: int, offset: nat)
    ensures AtMost(s, offset) ==> AtMost(AliveFrom(s, node), offset)
    ensures Above(s, offset) ==> Above(AliveFrom(s, node), offset)
  {
    if s != [] {
      AliveFromBounds(s[..|s| - 1], node, offset);
    }
  }

  lemma InsertAlive(s: seq<Alloc>, l: seq<Alloc>, r: seq<Alloc>, a: Alloc, node: int)
    requires Sorted(s) && s == l + r && |l| == UpperBound(s, a.offset)
    requires AliveFrom(s, node) == AliveFrom(l, node) + AliveFrom(r, node)
    ensures Insert(AliveFrom(s, node), a) == AliveFrom(l, node) + [a] + AliveFrom(r, node)
  {
    assert AtMost(l, a.offset) by {
      assert forall k :: 0 <= k < |l| ==> l[k] == s[k];
    }
    assert Above(r, a.offset) by {
      assert forall k :: 0 <= k < |r| ==> r[k] == s[|l| + k];
    }
    AliveFromBounds(l, node, a.offset);
    AliveFromBounds(r, node, a.offset);
    InsertBetween(AliveFrom(l, node), AliveFrom(r, node), a);
  }

  lemma InsertBetween(l: seq<Alloc>, r: seq<Alloc>, a: Alloc)
    requires Sorted(l + r) && AtMost(l, a.offset) && Above(r, a.offset)
    ensures Insert(l + r, a) == l + [a] + r
  {
    UpperBoundUnique(l + r, a.offset, |l|);
    assert (l + r)[..|l|] == l && (l + r)[|l|..] == r;
  }

  /** Entries that end before `first` are invisible to the gap scan. */
  lemma {:induction false} ScanIgnoresDead(allocs: seq<Alloc>, node: int, alignment: nat, size: nat, first: int,
                                           last: int)
    requires alignment > 0 && node <= first
    ensures ScanAll(AliveFrom(allocs, node), alignment, size, first, last) == ScanAll(allocs, alignment, size, first,
      last)
  {
    if allocs != [] {
      var front, a := allocs[..|allocs| - 1], allocs[|allocs| - 1];
      ScanIgnoresDead(front, node, alignment, size, first, last);
      if node <= a.lastNode {
        assert (AliveFrom(front, node) + [a])[..|AliveFrom(front, node)|] == AliveFrom(front, node);
      }
    }
  }

  // ----- sequences of requests -----

  datatype Request = Request(size: nat, tensor: int, firstNode: int, lastNode: int)

  datatype Plan = Plan(active: seq<Alloc>, highWaterMark: nat)

  function Placed(active: seq<Alloc>, alignment: nat, r: Request): Alloc
    requires alignment > 0
  {
    Alloc(if r.size == 0 then 0 else Place(active, alignment, r.size, r.firstNode, r.lastNode),
          r.size, r.tensor, r.firstNode, r.lastNode)
  }

  /** The plan after one request; zero-sized tensors take no space. */
  function Allocated(p: Plan, alignment: nat, r: Request): (q: Plan)
    requires alignment > 0 && Sorted(p.active)
    ensures Sorted(q.active)
  {
    if r.size == 0 then p
    else
      var a := Placed(p.active, alignment, r);
      Plan(Insert(p.active, a), Max(p.highWaterMark, a.offset + a.size))
  }

  /** The allocations handed out for a sequence of requests, and the final high-water mark. */
  function Serve(p: Plan, alignment: nat, rs: seq<Request>): (seq<Alloc>, nat)
    requires alignment > 0 && Sorted(p.active)
    decreases |rs|
  {
    if rs == [] then ([], p.highWaterMark)
    else
      var (rest, mark) := Serve(Allocated(p, alignment, rs[0]), alignment, rs[1..]);
      ([Placed(p.active, alignment, rs[0])] + rest, mark)
  }

  lemma {:induction false} ServeSeesOnlyAlive(p: Plan, q: Plan, node: int, alignment: nat, rs: seq<Request>)
    requires alignment > 0 && Sorted(p.active) && Sorted(q.active)
    requires AliveFrom(p.active, node) == AliveFrom(q.active, node) && p.highWaterMark == q.highWaterMark
    requires forall i :: 0 <= i < |rs| ==> node <= rs[i].firstNode
    ensures Serve(p, alignment, rs) == Serve(q, alignment, rs)
    decreases |rs|
  {
    if rs != [] {
      var r := rs[0];
      ScanIgnoresDead(p.active, node, alignment, r.size, r.firstNode, r.lastNode);
      ScanIgnoresDead(q.active, node, alignment, r.size, r.firstNode, r.lastNode);
      var a := Placed(p.active, alignment, r);
      assert a == Placed(q.active, alignment, r);
      AliveFromInsert(p.active, a, node);
      AliveFromInsert(q.active, a, node);
      ServeSeesOnlyAlive(Allocated(p, alignment, r), Allocated(q, alignment, r), node, alignment, rs[1..]);
    }
  }

  /** Purging entries that end before `node` changes no later offset and no high-water mark. */
  lemma PurgeIsNeutral(p: Plan, node: int, alignment: nat, rs: seq<Request>)
    requires alignment > 0 && Sorted(p.active)
    requires forall i :: 0 <= i < |rs| ==> node <= rs[i].firstNode
    ensures Serve(p.(active := AliveFrom(p.active, node)), alignment, rs) == Serve(p, alignment, rs)
  {
    AliveFromIdempotent(p.active, node);
    ServeSeesOnlyAlive(p.(active := AliveFrom(p.active, node)), p, node, alignment, rs);
  }

  // ----- tensors placed in one arena -----

  /** The tensors of `live` hold aligned ranges below the mark, disjoint whenever their intervals
      intersect, and the active list has every one of them that is still alive at `from`. */
  ghost predicate Layout(p: Plan, alignment: nat, live: set<int>, allocs: seq<Alloc>, from: int)
    requires alignment > 0
  {
    && Sorted(p.active)
    && (forall t :: t in live ==> 0 <= t < |allocs|)
    && (forall t :: t in live ==> InBounds(p.highWaterMark, alignment, t, allocs[t]))
    && (forall t, u :: t in live && u in live && t != u ==> Compatible(allocs[t], allocs[u]))
    && (forall a :: a in p.active ==> a.tensor in live && a == allocs[a.tensor])
    && (forall t :: t in live && from <= allocs[t].lastNode ==> allocs[t] in p.active)
  }

  predicate InBounds(mark: nat, alignment: nat, t: int, a: Alloc)
    requires alignment > 0
  {
    a.tensor == t && a.size > 0 && a.offset % alignment == 0 && a.offset + a.size <= mark
  }

  /** Two allocations alive at a common node hold disjoint bytes. */
  predicate Compatible(a: Alloc, b: Alloc) {
    Intersects(a, b.firstNode, b.lastNode) ==> Apart(a.offset, a.size, b)
  }

  /** Serving one more request keeps the layout. */
  lemma LayoutAllocate(p: Plan, alignment: nat, live: set<int>, allocs: seq<Alloc>, from: int, r: Request)
    requires alignment > 0 && Layout(p, alignment, live, allocs, from)
    requires 0 <= r.tensor < |allocs| && r.tensor !in live && r.size > 0 && from <= r.firstNode
    ensures Layout(Allocated(p, alignment, r), alignment, live + {r.tensor},
                   allocs[r.tensor := Placed(p.active, alignment, r)], from)
  {
    var a := Placed(p.active, alignment, r);
    var q := Allocated(p, alignment, r);
    var allocs' := allocs[r.tensor := a];
    PlaceIsSafe(p.active, alignment, r.size, r.firstNode, r.lastNode);
    forall t | t in live
      ensures Compatible(allocs[t], a) && Compatible(a, allocs[t])
    {
      if Intersects(allocs[t], a.firstNode, a.lastNode) {
        assert allocs[t] in p.active;
        var i :| 0 <= i < |p.active| && p.active[i] == allocs[t];
      }
    }
    forall b
      ensures b in q.active <==> b == a || b in p.active
    {
      InsertMembers(p.active, a, b);
    }
  }

  lemma LayoutIsSorted(p: Plan, alignment: nat, live: set<int>, allocs: seq<Alloc>, from: int)
    requires alignment > 0 && Layout(p, alignment, live, allocs, from)
    ensures Sorted(p.active)
  {}

  lemma LayoutLater(p: Plan, alignment: nat, live: set<int>, allocs: seq<Alloc>, from: int, later: int)
    requires alignment > 0 && Layout(p, alignment, live, allocs, from) && from <= later
    ensures Layout(p, alignment, live, allocs, later)
  {}

  /** A layout does not depend on the record of a tensor outside it. */
  lemma LayoutFrame(p: Plan, alignment: nat, live: set<int>, allocs: seq<Alloc>, from: int, t: int, a: Alloc)
    requires alignment > 0 && Layout(p, alignment, live, allocs, from)
    requires 0 <= t < |allocs| && t !in live
    ensures Layout(p, alignment, live, allocs[t := a], from)
  {}

  lemma LayoutPurge(p: Plan, alignment: nat, live: set<int>, allocs: seq<Alloc>, from: int, node: int)
    requires alignment > 0 && Layout(p, alignment, live, allocs, from) && from <= node
    ensures Layout(p.(active := AliveFrom(p.active, node)), alignment, live, allocs, node)
  {
    forall a
      ensures a in AliveFrom(p.active, node) <==> a in p.active && node <= a.lastNode
    {
      AliveFromMembers(p.active, node, a);
    }
  }

  // ----- the buffer and the arena -----

  /** A data pointer: an offset into one block of memory. */
  datatype Pointer = Null | Pointer(base: array<byte>, offset: nat)

  /** Grows by allocating a new block and copying; the base address then changes. */
  class ResizableAlignedBuffer {
    var data: array<byte>
    const alignment: nat

    constructor (alignment: nat)
      ensures fresh(data) && data.Length == 0 && this.alignment == alignment
    {
      data := new byte[0];
      this.alignment := alignment;
    }

    method Resize(newSize: nat) returns (reallocated: bool)
      modifies this
      ensures reallocated == (newSize > old(data.Length))
      ensures reallocated ==> fresh(data) && data.Length == newSize
      ensures !reallocated ==> data == old(data)
      ensures old(data[..]) <= data[..]
      ensures old(data)[..] == old(data[..])
    {
      if newSize <= data.Length {
        return false;
      }
      var grown := new byte[newSize];
      forall i | 0 <= i < data.Length {
        grown[i] := data[i];
      }
      data := grown;
      return true;
    }
  }

  class SimpleMemoryArena {
    var committed: bool
    var highWaterMark: nat
    var activeAllocs: seq<Alloc>
    const buffer: ResizableAlignedBuffer

    constructor (alignment: nat)
      ensures fresh(buffer) && fresh(buffer.data) && buffer.alignment == alignment
      ensures !committed && Current() == Plan([], 0)
    {
      committed := false;
      highWaterMark := 0;
      activeAllocs := [];
      buffer := new ResizableAlignedBuffer(alignment);
    }

    ghost function Current(): Plan
      reads this
    {
      Plan(activeAllocs, highWaterMark)
    }

    method ResetAllocs()
      modifies this`activeAllocs
      ensures activeAllocs == []
    {
      activeAllocs := [];
    }

    /** Marks the entries that end before `node`, then erases the marked ones. */
    method PurgeActiveAllocs(node: int)
      requires forall a :: a in activeAllocs ==> a.tensor != -1
      modifies this`activeAllocs
      ensures activeAllocs == AliveFrom(old(activeAllocs), node)
    {
      ghost var was := activeAllocs;
      for i := 0 to |activeAllocs|
        invariant |activeAllocs| == |was|
        invariant forall j :: 0 <= j < |was| ==>
          activeAllocs[j] == if j < i && was[j].lastNode < node then was[j].(tensor := -1) else was[j]
      {
        if activeAllocs[i].lastNode < node {
          activeAllocs := activeAllocs[i := activeAllocs[i].(tensor := -1)];
        }
      }
      var kept := [];
      for i := 0 to |activeAllocs|
        invariant kept == AliveFrom(was[..i], node)
      {
        assert was[..i + 1][..i] == was[..i];
        assert was[i] in was;
        if activeAllocs[i].tensor != -1 {
          kept := kept + [activeAllocs[i]];
        }
      }
      assert was[..|was|] == was;
      activeAllocs := kept;
    }

    /** Reserves an offset for a tensor alive over [firstNode, lastNode]. */
    method Allocate(alignment: nat, size: nat, tensor: int, firstNode: int, lastNode: int)
      returns (ok: bool, newAlloc: Alloc)
      requires alignment > 0 && Sorted(activeAllocs)
      modifies this`highWaterMark, this`activeAllocs
      ensures ok == (alignment <= buffer.alignment)
      ensures !ok ==> Current() == old(Current())
      ensures ok ==> newAlloc == Placed(old(activeAllocs), alignment, Request(size, tensor, firstNode, lastNode))
      ensures ok ==> Current() == Allocated(old(Current()), alignment, Request(size, tensor, firstNode, lastNode))
    {
      if alignment > buffer.alignment {
        return false, NO_ALLOC;
      }
      newAlloc := Alloc(0, size, tensor, firstNode, lastNode);
      if size == 0 {
        return true, newAlloc;
      }
      var best: Option<Hole> := None;
      var currentOffset: nat := 0;
      var i := 0;
      while i < |activeAllocs|
        invariant 0 <= i <= |activeAllocs|
        invariant ScanAll(activeAllocs[..i], alignment, size, firstNode, lastNode) == Scan(currentOffset, best)
        invariant best.Some? ==> best.value.fit > 0
      {
        var alloc := activeAllocs[i];
        assert activeAllocs[..i + 1][..i] == activeAllocs[..i];
        i := i + 1;
        if alloc.lastNode < firstNode || alloc.firstNode > lastNode {
          continue;
        }
        var aligned := AlignTo(alignment, currentOffset);
        if aligned + size <= alloc.offset && (best.None? || alloc.offset - aligned < best.value.fit) {
          best := Some(Hole(aligned, alloc.offset - currentOffset));
        }
        currentOffset := Max(currentOffset, alloc.offset + alloc.size);
        // A gap of length zero never holds a tensor of positive size, so this exit is never taken.
        if best.Some? && best.value.fit == 0 {
          break;
        }
      }
      assert activeAllocs[..|activeAllocs|] == activeAllocs;
      var offset := if best.Some? then best.value.offset else AlignTo(alignment, currentOffset);
      highWaterMark := Max(highWaterMark, offset + size);
      newAlloc := newAlloc.(offset := offset);
      activeAllocs := Insert(activeAllocs, newAlloc);
      ok := true;
    }

    method Commit() returns (reallocated: bool)
      modifies this`committed, buffer
      ensures committed
      ensures reallocated == (highWaterMark > old(buffer.data.Length))
      ensures reallocated ==> fresh(buffer.data)
      ensures !reallocated ==> buffer.data == old(buffer.data)
      ensures highWaterMark <= buffer.data.Length
      ensures old(buffer.data[..]) <= buffer.data[..]
      ensures old(buffer.data)[..] == old(buffer.data[..])
    {
      reallocated := buffer.Resize(highWaterMark);
      committed := true;
    }

    /** The address of an allocation; zero-sized allocations resolve to null. */
    method ResolveAlloc(alloc: Alloc) returns (ok: bool, pointer: Pointer)
      ensures ok == (committed && alloc.offset + alloc.size <= buffer.data.Length)
      ensures ok ==> pointer == if alloc.size == 0 then Null else Pointer(buffer.data, alloc.offset)
    {
      if !committed || buffer.data.Length < alloc.offset + alloc.size {
        return false, Null;
      }
      return true, if alloc.size == 0 then Null else Pointer(buffer.data, alloc.offset);
    }

    method ClearPlan()
      modifies this`committed, this`highWaterMark, this`activeAllocs
      ensures !committed && Current() == Plan([], 0)
    {
      committed := false;
      highWaterMark := 0;
      activeAllocs := [];
    }
  }
}
