/** The incremental arena planner: `arena_planner.cc`. */
module Planning {
  import opened Bytes

  import opened Graphs

  import opened Lifetimes

  import opened MemoryArena

  const DEFAULT_ARENA_ALIGNMENT := 64

  /** The tensors queued for allocation by the outputs of node `i`. */
  function OutputsOf(g: Graph, i: int): set<int>
    requires 0 <= i < |g.nodes|
  {
    Present(g.nodes[i].outputs)
  }

  /** The tensors of a list, without the optional marker. */
  function Present(s: seq<int>): set<int> {
    set t | t in s && t != OPTIONAL
  }

  lemma PresentStep(s: seq<int>, k: nat)
    requires k < |s|
    ensures Present(s[..k + 1]) == Present(s[..k]) + if s[k] == OPTIONAL then {} else {s[k]}
  {
    assert s[..k + 1] == s[..k] + [s[k]];
  }

  function GivenTensors(g: Graph): set<int> {
    Present(g.variables) + Present(g.inputs)
  }

  function QueuedByPlan(g: Graph, i: int): set<int>
    requires 0 <= i
  {
    (if i == 0 then GivenTensors(g) else {}) + (if i < |g.nodes| then OutputsOf(g, i) else {})
  }

  lemma OccurrencesStep(s: seq<int>, k: nat, t: int)
    requires k < |s|
    ensures Occurrences(s[..k + 1], t) == Occurrences(s[..k], t) + if s[k] == t then 1 else 0
  {
    assert s[..k + 1][..k] == s[..k];
  }

  /** A tensor is queued at its allocation node and nowhere else. */
  ghost predicate QueuesMatch(g: Graph, queues: seq<set<int>>, allocNode: seq<int>)
    requires |allocNode| == |g.tensors|
  {
    forall i, t :: 0 <= i < |queues| ==> (t in queues[i] <==> g.IsTensor(t) && allocNode[t] == i)
  }

  /** The list holds the tensors of the range that need bytes. */
  ghost predicate Selected(g: Graph, allocNode: seq<int>, allocs: seq<Alloc>, first: int, last: int, list: seq<int>)
    requires |allocNode| == |allocs| == |g.tensors|
  {
    forall t :: t in list <==> g.IsTensor(t) && first <= allocNode[t] <= last && NeedsBytes(g, allocs, t)
  }

  /** Only tensors of the list got a new allocation. */
  ghost predicate OnlyPlaced(g: Graph, before: seq<Alloc>, after: seq<Alloc>, list: seq<int>)
    requires |before| == |after| == |g.tensors|
  {
    forall t :: g.IsTensor(t) && t !in list ==> after[t] == before[t]
  }

  lemma NothingPlaced(g: Graph, allocs: seq<Alloc>, actual: map<int, int>)
    requires |allocs| == |g.tensors|
    ensures OnlyPlaced(g, allocs, allocs, []) && Shrunk(g, actual, actual, [])
  {}

  /** One more tensor of the list gets its bytes, or keeps sharing. */
  lemma PlacedStep(g: Graph, allocs0: seq<Alloc>, allocs1: seq<Alloc>, allocs2: seq<Alloc>, actual0: map<int, int>,
                   actual1: map<int, int>, actual2: map<int, int>, list: seq<int>, t: int)
    requires |allocs0| == |allocs1| == |allocs2| == |g.tensors|
    requires OnlyPlaced(g, allocs0, allocs1, list) && Shrunk(g, actual0, actual1, list)
    requires forall u :: g.IsTensor(u) && u != t ==> allocs2[u] == allocs1[u]
    requires actual2 == if t in actual1 && !CanHold(g, actual1[t], t) then actual1 - {t} else actual1
    ensures OnlyPlaced(g, allocs0, allocs2, list + [t]) && Shrunk(g, actual0, actual2, list + [t])
  {
    hide CanHold;
  }

  lemma AliasRoot(g: Graph, actual: map<int, int>, t: int)
    requires RootsAreTensors(g, actual)
    ensures t in actual ==> g.IsTensor(actual[t])
  {}

  lemma DroppedAlias(g: Graph, actual: map<int, int>, t: int)
    requires RootsAreTensors(g, actual) && Flat(actual)
    ensures RootsAreTensors(g, actual - {t}) && Flat(actual - {t})
  {}

  predicate Owns(g: Graph, actual: map<int, int>, t: int, kind: AllocationType) {
    g.IsTensor(t) && t !in actual && g.tensors[t].allocationType == kind && g.tensors[t].bytes > 0
  }

  /** Tensors that own bytes, allocated below node `done` or listed. */
  function OwnersWith(g: Graph, actual: map<int, int>, allocNode: seq<int>, kind: AllocationType, done: int,
                      list: seq<int>): set<int>
    requires |allocNode| == |g.tensors|
  {
    set t | 0 <= t < |g.tensors| && Owns(g, actual, t, kind) && (0 <= allocNode[t] < done || t in list)
  }

  lemma OwnersStep(g: Graph, before: map<int, int>, after: map<int, int>, allocNode: seq<int>, kind: AllocationType,
                   done: int, list: seq<int>, t: int)
    requires |allocNode| == |g.tensors| && g.IsTensor(t) && done <= allocNode[t] && t !in list
    requires after == before || after == before - {t}
    ensures t !in OwnersWith(g, before, allocNode, kind, done, list)
    ensures OwnersWith(g, after, allocNode, kind, done, list + [t]) ==
      OwnersWith(g, before, allocNode, kind, done, list) + if Owns(g, after, t, kind) then {t} else {}
  {}

  /** The buffer of `root` can still hold `t` when its bytes are reserved. */
  predicate CanHold(g: Graph, root: int, t: int) {
    g.IsTensor(root) && g.IsTensor(t) && g.tensors[root].allocationType == ArenaRw
    && g.tensors[root].bytes == g.tensors[t].bytes
  }

  /** No alias in the persistent arena is left without bytes because a buffer in the other arena could hold it. */
  ghost predicate NoneLost(g: Graph, actual: map<int, int>) { forall t :: OnArena(g, t) ==> !IsLost(g, actual, t) }

  predicate IsLost(g: Graph, actual: map<int, int>, t: int)
    requires g.IsTensor(t)
  {
    t in actual && g.tensors[t].allocationType == ArenaRwPersistent && CanHold(g, actual[t], t)
  }

  /** Of the aliases of the listed tensors, those are dropped whose owner cannot hold them. */
  predicate Shrunk(g: Graph, before: map<int, int>, after: map<int, int>, list: seq<int>) {
    && (forall t :: t in after ==> t in before && after[t] == before[t])
    && (forall t :: t in before && t !in after ==> t in list && !CanHold(g, before[t], t))
    && (forall t :: t in before && t in list && !CanHold(g, before[t], t) ==> t !in after)
  }

  /** The arena tensors allocated below node `done` that still are aliases fit the buffers of their owners. */
  ghost predicate Settled(g: Graph, actual: map<int, int>, allocNode: seq<int>, done: int)
    requires |allocNode| == |g.tensors|
  {
    forall t :: t in actual && OnArena(g, t) && 0 <= allocNode[t] < done ==> CanHold(g, actual[t], t)
  }

  /** What planning a range does to the aliases and to what was allocated before it. */
  lemma RangeSettles(g: Graph, preserve: bool, before: map<int, int>, after: map<int, int>, alloc0: seq<int>,
                     dealloc0: seq<int>, alloc1: seq<int>, dealloc1: seq<int>, first: int, last: int, list: seq<int>)
    requires |alloc0| == |dealloc0| == |alloc1| == |dealloc1| == |g.tensors| && g.WellIndexed() && 0 <= first <= last
    requires LifetimesExtended(g, preserve, alloc0, dealloc0, alloc1, dealloc1, first, last)
    requires Shrunk(g, before, after, list)
    requires forall t :: OnArena(g, t) && t in after && first <= alloc1[t] <= last ==> t in list
    ensures forall t :: g.IsTensor(t) && 0 <= alloc1[t] < first ==> alloc0[t] == alloc1[t]
    ensures Settled(g, before, alloc0, first) ==> Settled(g, after, alloc1, last + 1)
    ensures SameOwners(g, after, before)
  {
    forall t | g.IsTensor(t) && 0 <= alloc1[t] < first
      ensures alloc0[t] == alloc1[t]
    {
      assert !ScratchedIn(g, first, last + 1, t);
    }
    forall t
      ensures KeepsAlias(g, after, t) <==> KeepsAlias(g, before, t)
      ensures Owner(g, after, t) == Owner(g, before, t)
    {
      ShrunkKeepsOwners(g, before, after, list, t);
    }
  }

  lemma ShrunkIsPart(g: Graph, before: map<int, int>, after: map<int, int>, list: seq<int>)
    requires Shrunk(g, before, after, list)
    ensures forall t :: t in after ==> t in before && after[t] == before[t]
  {}

  /** Dropping aliases changes no owner. */
  lemma ShrunkKeepsOwners(g: Graph, before: map<int, int>, after: map<int, int>, list: seq<int>, t: int)
    requires Shrunk(g, before, after, list)
    ensures KeepsAlias(g, after, t) <==> KeepsAlias(g, before, t)
    ensures Owner(g, after, t) == Owner(g, before, t)
  {}

  predicate NeedsBytes(g: Graph, allocs: seq<Alloc>, t: int)
    requires |allocs| == |g.tensors| && g.IsTensor(t)
  {
    var tensor := g.tensors[t];
    (tensor.allocationType == ArenaRw && allocs[t].size < tensor.bytes) || tensor.allocationType == ArenaRwPersistent
  }

  /** Tensors allocated from node `first` on have no bytes yet. */
  lemma UnplacedBeyond(g: Graph, actual: map<int, int>, allocNode: seq<int>, deallocNode: seq<int>, allocs: seq<Alloc>,
                       first: int)
    requires |allocNode| == |deallocNode| == |allocs| == |g.tensors|
    requires Recorded(g, allocNode, deallocNode, allocs,
      OwnersWith(g, actual, allocNode, ArenaRw, first, []),
          OwnersWith(g, actual, allocNode, ArenaRwPersistent, first, []))
    ensures forall t :: g.IsTensor(t) && first <= allocNode[t] ==> allocs[t].size == 0
  {}

  /** The tensors selected in a range are exactly the ones the range adds to an arena. */
  lemma RangeOwners(g: Graph, before: map<int, int>, after: map<int, int>, allocNode: seq<int>, allocs: seq<Alloc>,
                    kind: AllocationType, first: int, last: int, list: seq<int>)
    requires |allocNode| == |allocs| == |g.tensors| && 0 <= first <= last && kind in {ArenaRw, ArenaRwPersistent}
    requires Shrunk(g, before, after, list)
    requires forall t :: t in list <==> g.IsTensor(t) && first <= allocNode[t] <= last && NeedsBytes(g, allocs, t)
    requires forall t :: g.IsTensor(t) && first <= allocNode[t] ==> allocs[t].size == 0
    ensures OwnersWith(g, after, allocNode, kind, first, list) == OwnersWith(g, after, allocNode, kind, last + 1, [])
  {}

  /** Planning a range sets the lifetimes of its temporaries and changes no other lifetime. */
  ghost predicate LifetimesExtended(g: Graph, preserve: bool, alloc0: seq<int>, dealloc0: seq<int>, alloc1: seq<int>,
                                    dealloc1: seq<int>,
                                    first: int, last: int)
    requires |alloc0| == |dealloc0| == |alloc1| == |dealloc1| == |g.tensors| && g.WellIndexed() && 0 <= first
  {
    && (forall i, t :: first <= i <= last && i < |g.nodes| && g.Scratches(i, t) ==>
          alloc1[t] == i && dealloc1[t] == if preserve then dealloc0[t] else i)
    && (forall i, t :: first <= i && last < i < |g.nodes| && g.Scratches(i, t) ==> alloc1[t] == NOT_ASSIGNED)
    && (forall t :: g.IsTensor(t) && !ScratchedIn(g, first, last + 1, t) ==>
          alloc1[t] == alloc0[t] && dealloc1[t] == dealloc0[t])
  }

  lemma LifetimesStay(g: Graph, preserve: bool, alloc0: seq<int>, dealloc0: seq<int>, alloc1: seq<int>,
                      dealloc1: seq<int>, first: int, last: int, t: int)
    requires |alloc0| == |dealloc0| == |alloc1| == |dealloc1| == |g.tensors| && g.WellIndexed() && 0 <= first
    requires LifetimesExtended(g, preserve, alloc0, dealloc0, alloc1, dealloc1, first, last) && g.IsTensor(t)
    requires forall i :: first <= i < |g.nodes| && g.Scratches(i, t) ==> alloc0[t] == NOT_ASSIGNED
    requires 0 <= alloc0[t] < first <= NOT_ASSIGNED
    ensures alloc1[t] == alloc0[t]
  {
    assert !ScratchedIn(g, first, last + 1, t);
  }

  /** The temporaries of a range are not among the tensors already placed. */
  lemma TemporariesAreNew(g: Graph, preserve: bool, actual: map<int, int>, alloc0: seq<int>, dealloc0: seq<int>,
                          alloc1: seq<int>, dealloc1: seq<int>,
                          allocs: seq<Alloc>, first: int, last: int)
    requires |alloc0| == |dealloc0| == |alloc1| == |dealloc1| == |allocs| == |g.tensors| && g.WellIndexed()
      && 0 <= first <= NOT_ASSIGNED
    requires LifetimesExtended(g, preserve, alloc0, dealloc0, alloc1, dealloc1, first, last)
    requires forall i, t :: first <= i < |g.nodes| && g.Scratches(i, t) ==> alloc0[t] == NOT_ASSIGNED
    ensures OwnersWith(g, actual, alloc1, ArenaRw, first, []) == OwnersWith(g, actual, alloc0, ArenaRw, first, [])
    ensures OwnersWith(g, actual, alloc1, ArenaRwPersistent, first, []) == OwnersWith(g, actual, alloc0,
      ArenaRwPersistent, first, [])
    ensures var live, persistent := OwnersWith(g, actual, alloc0, ArenaRw, first, []),
      OwnersWith(g, actual, alloc0, ArenaRwPersistent, first, []);
      Recorded(g, alloc0, dealloc0, allocs, live, persistent) ==>
          Recorded(g, alloc1, dealloc1, allocs, live, persistent)
  {
    forall t | g.IsTensor(t)
      ensures (alloc1[t] == alloc0[t] && dealloc1[t] == dealloc0[t])
        || (alloc0[t] == NOT_ASSIGNED && first <= alloc1[t])
    {
      if ScratchedIn(g, first, last + 1, t) {
        var i :| 0 <= i && first <= i < last + 1 && i < |g.nodes| && g.Scratches(i, t);
      }
    }
  }

  /** A tensor placed after the range was selected in it or placed before it. */
  ghost predicate SelectedOrPlaced(g: Graph, before: map<int, int>, after: map<int, int>, alloc0: seq<int>,
                                   alloc1: seq<int>,
                                   first: int, last: int, list: seq<int>)
    requires |alloc0| == |alloc1| == |g.tensors|
  {
    forall t, kind :: kind in {ArenaRw, ArenaRwPersistent} && t in OwnersWith(g, after, alloc1, kind, last + 1, []) ==>
      t in list || t in OwnersWith(g, before, alloc0, kind, first, [])
  }

  lemma AllSelectedOrPlaced(g: Graph, before: map<int, int>, after: map<int, int>, alloc0: seq<int>, alloc1: seq<int>,
                            allocs: seq<Alloc>,
                            first: int, last: int, list: seq<int>)
    requires |alloc0| == |alloc1| == |allocs| == |g.tensors| && 0 <= first <= last
    requires Shrunk(g, before, after, list)
    requires forall t :: t in list <==> g.IsTensor(t) && first <= alloc1[t] <= last && NeedsBytes(g, allocs, t)
    requires OwnersWith(g, before, alloc1, ArenaRw, first, []) == OwnersWith(g, before, alloc0, ArenaRw, first, [])
    requires OwnersWith(g, before, alloc1, ArenaRwPersistent, first, []) == OwnersWith(g, before, alloc0,
      ArenaRwPersistent, first, [])
    requires forall t :: g.IsTensor(t) && first <= alloc1[t] ==> allocs[t].size == 0
    ensures SelectedOrPlaced(g, before, after, alloc0, alloc1, first, last, list)
  {
    forall t, kind | kind in {ArenaRw, ArenaRwPersistent} && t in OwnersWith(g, after, alloc1, kind, last + 1, [])
        && t !in list
      ensures t in OwnersWith(g, before, alloc0, kind, first, [])
    {
      assert t in OwnersWith(g, before, alloc1, kind, first, []);
    }
  }

  predicate RecordedAs(g: Graph, allocNode: seq<int>, allocs: seq<Alloc>, t: int, lastNode: int)
    requires |allocNode| == |allocs| == |g.tensors| && g.IsTensor(t)
  {
    allocs[t].size == g.tensors[t].bytes && allocs[t].firstNode == allocNode[t] && allocs[t].lastNode == lastNode
  }

  /** The allocation records agree with the lifetimes; tensors without bytes have empty records. */
  ghost predicate Recorded(g: Graph, allocNode: seq<int>, deallocNode: seq<int>, allocs: seq<Alloc>, live: set<int>,
                           persistent: set<int>)
    requires |allocNode| == |deallocNode| == |allocs| == |g.tensors|
  {
    && (forall t :: t in live ==> g.IsTensor(t) && RecordedAs(g, allocNode, allocs, t, deallocNode[t]))
    && (forall t :: t in persistent ==> g.IsTensor(t) && RecordedAs(g, allocNode, allocs, t, NOT_ASSIGNED))
    && (forall t :: g.IsTensor(t) && t !in live && t !in persistent ==> allocs[t].size == 0 && allocs[t].offset == 0)
  }

  lemma RecordLive(g: Graph, allocNode: seq<int>, deallocNode: seq<int>, allocs: seq<Alloc>, live: set<int>,
                   persistent: set<int>, t: int, a: Alloc)
    requires |allocNode| == |deallocNode| == |allocs| == |g.tensors|
    requires Recorded(g, allocNode, deallocNode, allocs, live, persistent)
    requires g.IsTensor(t) && t !in live && t !in persistent
    requires a.size == g.tensors[t].bytes && a.firstNode == allocNode[t] && a.lastNode == deallocNode[t]
    ensures Recorded(g, allocNode, deallocNode, allocs[t := a], live + {t}, persistent)
  {}

  lemma RecordPersistent(g: Graph, allocNode: seq<int>, deallocNode: seq<int>, allocs: seq<Alloc>, live: set<int>,
                         persistent: set<int>, t: int, a: Alloc)
    requires |allocNode| == |deallocNode| == |allocs| == |g.tensors|
    requires Recorded(g, allocNode, deallocNode, allocs, live, persistent)
    requires g.IsTensor(t) && t !in live && t !in persistent
    requires a.size == g.tensors[t].bytes && a.firstNode == allocNode[t] && a.lastNode == NOT_ASSIGNED
    ensures Recorded(g, allocNode, deallocNode, allocs[t := a], live, persistent + {t})
  {}

  lemma NoDuplicatesConcat(a: seq<int>, b: seq<int>)
    requires NoDuplicates(a) && NoDuplicates(b) && forall t :: t in a ==> t !in b
    ensures NoDuplicates(a + b)
  {
    var r := a + b;
    forall i, j | 0 <= i < j < |r|
      ensures r[i] != r[j]
    {
      if i < |a| <= j {
        assert r[i] in a && r[j] in b;
      }
    }
  }

  lemma {:induction false} NoDuplicatesCount(s: seq<int>, x: int)
    requires NoDuplicates(s)
    ensures multiset(s)[x] <= 1
  {
    if s != [] {
      var front := s[..|s| - 1];
      assert s == front + [s[|s| - 1]];
      NoDuplicatesCount(front, x);
      if x == s[|s| - 1] {
        assert x !in front;
        assert x !in multiset(front);
      }
    }
  }

  /** Rearranging a list without duplicates gives one without duplicates. */
  lemma NoDuplicatesPermuted(a: seq<int>, b: seq<int>)
    requires NoDuplicates(a) && multiset(a) == multiset(b)
    ensures NoDuplicates(b)
    ensures forall x :: x in a <==> x in b
  {
    forall i, j | 0 <= i < j < |b|
      ensures b[i] != b[j]
    {
      NoDuplicatesCount(a, b[i]);
      assert b == b[..j] + [b[j]] + b[j + 1..];
      assert b[..j][i] == b[i];
    }
    forall x
      ensures x in a <==> x in b
    {
      assert x in a <==> x in multiset(a);
      assert x in b <==> x in multiset(b);
    }
  }

  lemma HasElement(s: set<int>)
    requires s != {}
    ensures exists t :: t in s
  {
    if forall t :: t !in s { assert false; }
  }

  /** The elements of a set, in an arbitrary order. */
  method Elements(s: set<int>) returns (list: seq<int>)
    ensures NoDuplicates(list)
    ensures forall t :: t in list <==> t in s
  {
    list := [];
    var pending := s;
    while pending != {}
      invariant pending <= s
      invariant NoDuplicates(list)
      invariant forall t :: t in list <==> t in s && t !in pending
      decreases pending
    {
      HasElement(pending);
      var t :| t in pending;
      pending := pending - {t};
      list := list + [t];
    }
  }

  predicate AllTensors(g: Graph, list: seq<int>) {
    forall i :: 0 <= i < |list| ==> g.IsTensor(list[i])
  }

  predicate Lifelong(allocNode: seq<int>, deallocNode: seq<int>, t: int)
    requires 0 <= t < |allocNode| == |deallocNode|
  {
    allocNode[t] == 0 && deallocNode[t] == NOT_ASSIGNED
  }

  /** Tensors that live forever first, by index; then by decreasing size, then by allocation node. */
  predicate Before(g: Graph, allocNode: seq<int>, deallocNode: seq<int>, a: int, b: int)
    requires |allocNode| == |deallocNode| == |g.tensors| && g.IsTensor(a) && g.IsTensor(b)
  {
    if Lifelong(allocNode, deallocNode, a) then (if Lifelong(allocNode, deallocNode, b) then a < b else true)
    else if Lifelong(allocNode, deallocNode, b) then false
    else if g.tensors[a].bytes != g.tensors[b].bytes then g.tensors[a].bytes > g.tensors[b].bytes
    else allocNode[a] < allocNode[b]
  }

  predicate Ordered(g: Graph, allocNode: seq<int>, deallocNode: seq<int>, list: seq<int>)
    requires |allocNode| == |deallocNode| == |g.tensors| && AllTensors(g, list)
  {
    forall i, j :: 0 <= i < j < |list| ==> !Before(g, allocNode, deallocNode, list[j], list[i])
  }

  lemma InsertingAdds(s: seq<int>, x: int, p: int)
    requires 0 <= p <= |s|
    ensures multiset(s[..p] + [x] + s[p..]) == multiset(s) + multiset{x}
  {
    assert s == s[..p] + s[p..];
  }

  lemma InsertOrdered(g: Graph, allocNode: seq<int>, deallocNode: seq<int>, list: seq<int>, x: int, p: int)
    requires |allocNode| == |deallocNode| == |g.tensors| && AllTensors(g, list) && g.IsTensor(x)
    requires Ordered(g, allocNode, deallocNode, list) && 0 <= p <= |list|
    requires p > 0 ==> !Before(g, allocNode, deallocNode, x, list[p - 1])
    requires forall i :: p <= i < |list| ==> Before(g, allocNode, deallocNode, x, list[i])
    ensures AllTensors(g, list[..p] + [x] + list[p..])
      && Ordered(g, allocNode, deallocNode, list[..p] + [x] + list[p..])
  {
    var r := list[..p] + [x] + list[p..];
    forall i, j | 0 <= i < j < |r|
      ensures !Before(g, allocNode, deallocNode, r[j], r[i])
    {
      if j == p && i < p - 1 {
        assert !Before(g, allocNode, deallocNode, list[p - 1], list[i]);
      } else if i < p < j {
        assert !Before(g, allocNode, deallocNode, list[j - 1], list[i]);
      } else if p < i {
        assert !Before(g, allocNode, deallocNode, list[j - 1], list[i - 1]);
      } else if j < p {
        assert !Before(g, allocNode, deallocNode, list[j], list[i]);
      }
    }
  }

  predicate NoDuplicates(s: seq<int>) {
    forall i, j :: 0 <= i < j < |s| ==> s[i] != s[j]
  }

  ghost predicate ScratchedIn(g: Graph, first: int, end: int, t: int) {
    exists i :: 0 <= i && first <= i < end && i < |g.nodes| && g.Scratches(i, t)
  }

  /** Lifetime planning queues a tensor at its allocation node only. */
  lemma QueuedExactly(g: Graph, i: int, t: int)
    requires g.WellIndexed() && g.SingleProducer() && |g.nodes| < NOT_ASSIGNED && 0 <= i < Max(|g.nodes|, 1)
    ensures t in QueuedByPlan(g, i) <==> g.IsTensor(t) && AllocNode(g, t) == i
  {
    if i < |g.nodes| && g.Writes(i, t) {
      AllocNodeOfWritten(g, t, i);
    }
    if AllocNode(g, t) == i && !g.Given(t) {
      assert g.Writes(i, t);
    }
  }

  /** What one more input of node `i` does to the counts and to the deallocation nodes. */
  lemma ReleaseStep(g: Graph, actual: map<int, int>, i: int, j: int, t: int)
    requires 0 <= i < |g.nodes| && 0 <= j < |g.nodes[i].inputs|
    ensures UsesFrom(g, actual, i, j, t) == UsesFrom(g, actual, i, j + 1, t) +
      if UseAt(g, actual, i, j, t) then 1 else 0
    ensures DeallocNodeAfter(g, actual, false, i, j + 1, t) ==
      if !UseAt(g, actual, i, j, t) then DeallocNodeAfter(g, actual, false, i, j, t)
      else if Pins(g, t) == 0 && UsesFrom(g, actual, i, j + 1, t) == 0 && AllocNodeAfter(g, t, i + 1) != NOT_ASSIGNED
      then i
      else NOT_ASSIGNED
    ensures UseAt(g, actual, i, j, t) ==> DeallocNodeAfter(g, actual, false, i, j, t) == NOT_ASSIGNED
  {}

  /** Behind the last input of a node is the first of the next. */
  lemma InputsEnd(g: Graph, actual: map<int, int>, i: int, t: int)
    requires 0 <= i < |g.nodes|
    ensures UsesFrom(g, actual, i, |g.nodes[i].inputs|, t) == UsesFrom(g, actual, i + 1, 0, t)
    ensures DeallocNodeAfter(g, actual, false, i, |g.nodes[i].inputs|, t) == DeallocNodeAfter(g, actual, false, i + 1,
      0, t)
  {}

  /** A released tensor was allocated, so queueing it again finds it allocated. */
  lemma DeallocImpliesAlloc(g: Graph, actual: map<int, int>, preserve: bool, i: int, t: int)
    requires 0 <= i <= |g.nodes|
    ensures DeallocNodeAfter(g, actual, preserve, i, 0, t) != NOT_ASSIGNED ==> AllocNodeAfter(g, t, i) != NOT_ASSIGNED
  {
    FirstProducerStable(g, t, LastUseBefore(g, actual, i, 0, t) + 1, i);
  }

  // ----- the planner -----

  class ArenaPlanner {
    const graph: Graph
    const preserveAllTensors: bool
    const tensorAlignment: nat
    const arena: SimpleMemoryArena
    const persistentArena: SimpleMemoryArena
    var allocs: seq<Alloc>
    var nodesToTensors: seq<set<int>>
    var allocNode: seq<int>
    var deallocNode: seq<int>
    var refcounts: seq<int>
    var actualTensorId: map<int, int>
    var lastActiveNode: int
    var data: seq<Pointer>

    /** Both arenas are aligned to kDefaultArenaAlignment. */
    constructor (graph: Graph, preserveAllTensors: bool, tensorAlignment: nat)
      ensures this.graph == graph && this.preserveAllTensors == preserveAllTensors
        && this.tensorAlignment == tensorAlignment
      ensures fresh(arena) && fresh(persistentArena) && arena != persistentArena
      ensures fresh(arena.buffer) && fresh(persistentArena.buffer) && arena.buffer != persistentArena.buffer
      ensures fresh(arena.buffer.data) && fresh(persistentArena.buffer.data)
        && arena.buffer.data != persistentArena.buffer.data
      ensures arena.buffer.alignment == persistentArena.buffer.alignment == DEFAULT_ARENA_ALIGNMENT
    {
      this.graph := graph;
      this.preserveAllTensors := preserveAllTensors;
      this.tensorAlignment := tensorAlignment;
      arena := new SimpleMemoryArena(DEFAULT_ARENA_ALIGNMENT);
      persistentArena := new SimpleMemoryArena(DEFAULT_ARENA_ALIGNMENT);
      allocs, nodesToTensors, allocNode, deallocNode, refcounts, data := [], [], [], [], [], [];
      actualTensorId := map[];
      lastActiveNode := NOT_ASSIGNED;
    }

    /** What the planner asks of its graph: indices in range, and fewer nodes than the sentinel. */
    predicate GoodGraph() {
      graph.WellIndexed() && InPlaceHasOutput(graph) && |graph.nodes| < NOT_ASSIGNED
    }

    predicate Sized()
      reads this
    {
      && |allocs| == |allocNode| == |deallocNode| == |refcounts| == |data| == |graph.tensors|
      && |nodesToTensors| == Max(|graph.nodes|, 1)
    }

    method FindSharedTensor(tensor: int) returns (owner: int)
      ensures owner == Shared(actualTensorId, tensor)
    {
      owner := if tensor in actualTensorId then actualTensorId[tensor] else tensor;
    }

    /** Queues a tensor for allocation by `node` unless it already is. */
    method AllocateAt(node: int, tensor: int) returns (ok: bool)
      requires graph.IsTensor(tensor) && Sized()
      requires allocNode[tensor] == NOT_ASSIGNED ==> deallocNode[tensor] == NOT_ASSIGNED
      modifies this`allocNode
      ensures ok
      ensures allocNode ==
        if old(allocNode[tensor]) != NOT_ASSIGNED then old(allocNode) else old(allocNode)[tensor := node]
    {
      if allocNode[tensor] != NOT_ASSIGNED {
        return true;
      }
      if deallocNode[tensor] != NOT_ASSIGNED {
        return false;
      }
      allocNode := allocNode[tensor := node];
      return true;
    }

    /** Releases a tensor after `node`; constants were never allocated and are left alone. */
    method DeallocateAt(node: int, tensor: int) returns (ok: bool)
      requires graph.IsTensor(tensor) && Sized()
      requires deallocNode[tensor] == NOT_ASSIGNED
      modifies this`deallocNode
      ensures ok
      ensures deallocNode ==
        if allocNode[tensor] == NOT_ASSIGNED then old(deallocNode) else old(deallocNode)[tensor := node]
    {
      if allocNode[tensor] == NOT_ASSIGNED {
        return true;
      }
      if deallocNode[tensor] != NOT_ASSIGNED {
        return false;
      }
      deallocNode := deallocNode[tensor := node];
      return true;
    }

    method ResetAllocations()
      modifies this`allocs, this`lastActiveNode, arena, persistentArena
      ensures allocs == seq(|graph.tensors|, i => NO_ALLOC) && lastActiveNode == NOT_ASSIGNED
      ensures arena.Current() == Plan([], 0) && persistentArena.Current() == Plan([], 0)
    {
      arena.ClearPlan();
      persistentArena.ClearPlan();
      allocs := seq(|graph.tensors|, i => NO_ALLOC);
      lastActiveNode := NOT_ASSIGNED;
    }

    /** Counts the references that keep a tensor alive forever and queues the given tensors. */
    method PinTensors() returns (ok: bool)
      requires GoodGraph() && Sized()
      requires forall t :: 0 <= t < |refcounts| ==> refcounts[t] == 0
      requires forall t :: 0 <= t < |allocNode| ==> allocNode[t] == NOT_ASSIGNED && deallocNode[t] == NOT_ASSIGNED
      requires forall i :: 0 <= i < |nodesToTensors| ==> nodesToTensors[i] == {}
      modifies this`refcounts, this`allocNode, this`nodesToTensors
      ensures ok && Sized()
      ensures forall t :: 0 <= t < |refcounts| ==> refcounts[t] == Pins(graph, t)
      ensures forall t :: 0 <= t < |allocNode| ==> allocNode[t] == AllocNodeAfter(graph, t, 0)
      ensures nodesToTensors == old(nodesToTensors)[0 := GivenTensors(graph)]
    {
      for k := 0 to |graph.outputs|
        invariant Sized() && allocNode == old(allocNode) && nodesToTensors == old(nodesToTensors)
        invariant forall t :: 0 <= t < |refcounts| ==> refcounts[t] == Occurrences(graph.outputs[..k], t)
      {
        forall t ensures Occurrences(graph.outputs[..k + 1], t) == Occurrences(graph.outputs[..k],
            t) + if graph.outputs[k] == t then 1 else 0 {
          OccurrencesStep(graph.outputs, k, t);
        }
        var tensor := graph.outputs[k];
        if tensor != OPTIONAL {
          refcounts := refcounts[tensor := refcounts[tensor] + 1];
        }
      }
      assert graph.outputs[..|graph.outputs|] == graph.outputs;
      PinGiven(graph.variables);
      PinGiven(graph.inputs);
      assert nodesToTensors[0] == GivenTensors(graph);
      ok := true;
    }

    /** Queues tensors the graph provides for node 0 and keeps them alive. */
    method PinGiven(given: seq<int>)
      requires GoodGraph() && Sized()
      requires forall k :: 0 <= k < |given| ==> graph.IsTensorOrOptional(given[k])
      requires forall t :: 0 <= t < |deallocNode| ==> deallocNode[t] == NOT_ASSIGNED
      modifies this`refcounts, this`allocNode, this`nodesToTensors
      ensures Sized()
      ensures forall t :: 0 <= t < |refcounts| ==> refcounts[t] == old(refcounts[t]) + Occurrences(given, t)
      ensures forall t :: 0 <= t < |allocNode| ==>
        allocNode[t] == if t in given && old(allocNode[t]) == NOT_ASSIGNED then 0 else old(allocNode[t])
      ensures nodesToTensors == old(nodesToTensors)[0 := old(nodesToTensors[0]) + Present(given)]
    {
      ghost var refs, starts, queues := refcounts, allocNode, nodesToTensors;
      assert queues[0] + Present(given[..0]) == queues[0];
      for k := 0 to |given|
        invariant Sized()
        invariant forall t :: 0 <= t < |refs| ==> refcounts[t] == refs[t] + Occurrences(given[..k], t)
        invariant forall t :: 0 <= t < |starts| ==>
          allocNode[t] == if starts[t] == NOT_ASSIGNED && Occurrences(given[..k], t) > 0 then 0 else starts[t]
        invariant nodesToTensors == queues[0 := queues[0] + Present(given[..k])]
      {
        forall t ensures Occurrences(given[..k + 1], t) == Occurrences(given[..k], t) + if given[k] == t then 1 else 0 {
          OccurrencesStep(given, k, t);
        }
        PresentStep(given, k);
        var tensor := given[k];
        if tensor == OPTIONAL {
          assert Present(given[..k + 1]) == Present(given[..k]);
          continue;
        }
        refcounts := refcounts[tensor := refcounts[tensor] + 1];
        var ok := AllocateAt(0, tensor);
        nodesToTensors := nodesToTensors[0 := nodesToTensors[0] + {tensor}];
        assert nodesToTensors[0] == queues[0] + Present(given[..k + 1]);
      }
      assert given[..|given|] == given;
      forall t ensures Occurrences(given, t) > 0 <==> t in given {
        OccurrencesPositive(given, t);
      }
    }

    /** Adds to `counts` the references made by node inputs, through the alias map. */
    method CountUses(counts: seq<int>, actual: map<int, int>) returns (r: seq<int>)
      requires GoodGraph() && RootsAreTensors(graph, actual) && |counts| == |graph.tensors|
      ensures |r| == |counts|
      ensures forall t :: 0 <= t < |r| ==> r[t] == counts[t] + UsesFrom(graph, actual, 0, 0, t)
    {
      r := counts;
      for i := 0 to |graph.nodes|
        invariant |r| == |counts|
        invariant forall t :: 0 <= t < |r| ==> r[t] == counts[t] + UsesBefore(graph, actual, i, 0, t)
      {
        var inputs := graph.nodes[i].inputs;
        for j := 0 to |inputs|
          invariant |r| == |counts|
          invariant forall t :: 0 <= t < |r| ==> r[t] == counts[t] + UsesBefore(graph, actual, i, j, t)
        {
          if inputs[j] != OPTIONAL {
            var tensor := Shared(actual, inputs[j]);
            r := r[tensor := r[tensor] + 1];
          }
        }
      }
      forall t | 0 <= t < |r|
        ensures r[t] == counts[t] + UsesFrom(graph, actual, 0, 0, t)
      {
        UsesSplit(graph, actual, |graph.nodes|, 0, t);
      }
    }

    /** Decides which first outputs share a buffer with an input of the same node. */
    method IdentifyInPlaceTensors()
      requires GoodGraph() && Sized()
      modifies this`actualTensorId
      ensures actualTensorId == InPlaceMap(graph, refcounts, preserveAllTensors, |graph.nodes|)
    {
      actualTensorId := map[];
      for i := 0 to |graph.nodes|
        invariant actualTensorId == InPlaceMap(graph, refcounts, preserveAllTensors, i)
      {
        var node := graph.nodes[i];
        if |node.outputs| < 1 { continue; }
        var tensorChanged := !node.inPlace.dataUnmodified;
        if node.inPlace.IsNone() { continue; }
        var inputId := -1;
        var outputId := node.outputs[0];
        var loopEnd := Min(MAX_SHARABLE_OP_INPUTS, |node.inputs|);
        var j := 0;
        while j < loopEnd
          invariant 0 <= j <= loopEnd && inputId == -1
          invariant SharedInputFrom(graph, refcounts, preserveAllTensors, i, 0)
                 == SharedInputFrom(graph, refcounts, preserveAllTensors, i, j)
        {
          if node.inputs[j] != OPTIONAL && node.inPlace.InputShared(j)
             && InputTensorCanBeShared(graph, refcounts, preserveAllTensors, node.inputs[j], outputId, tensorChanged) {
            inputId := node.inputs[j];
            break;
          }
          j := j + 1;
        }
        if inputId == -1 { continue; }
        var owner := FindSharedTensor(inputId);
        if tensorChanged && refcounts[owner] > 1 { continue; }
        actualTensorId := actualTensorId[outputId := owner];
      }
    }

    /** Walks the nodes in execution order, allocating outputs and releasing inputs at their last use. */
    method PlanLifetimes(counts: seq<int>) returns (ok: bool)
      requires GoodGraph() && Sized() && RootsAreTensors(graph, actualTensorId) && |counts| == |graph.tensors|
      requires forall t :: 0 <= t < |counts| ==> counts[t] == Pins(graph, t) + UsesFrom(graph, actualTensorId, 0, 0, t)
      requires forall t :: 0 <= t < |allocNode| ==>
        allocNode[t] == AllocNodeAfter(graph, t, 0) && deallocNode[t] == NOT_ASSIGNED
      requires forall i :: 0 <= i < |nodesToTensors| ==> nodesToTensors[i] == if i == 0 then GivenTensors(graph) else {}
      modifies this`allocNode, this`deallocNode, this`nodesToTensors
      ensures ok && Sized()
      ensures forall t :: 0 <= t < |allocNode| ==> allocNode[t] == AllocNode(graph, t)
      ensures forall t :: 0 <= t < |deallocNode| ==>
        deallocNode[t] == DeallocNode(graph, actualTensorId, preserveAllTensors, t)
      ensures forall i :: 0 <= i < |nodesToTensors| ==> nodesToTensors[i] == QueuedByPlan(graph, i)
    {
      var refs := counts;
      for i := 0 to |graph.nodes|
        invariant Sized() && |refs| == |graph.tensors|
        invariant forall t :: 0 <= t < |refs| ==>
          refs[t] == Pins(graph, t) + (if preserveAllTensors then UsesFrom(graph, actualTensorId, 0, 0, t)
              else UsesFrom(graph, actualTensorId, i, 0, t))
        invariant forall t :: 0 <= t < |allocNode| ==> allocNode[t] == AllocNodeAfter(graph, t, i)
        invariant forall t :: 0 <= t < |deallocNode| ==>
          deallocNode[t] == DeallocNodeAfter(graph, actualTensorId, preserveAllTensors, i, 0, t)
        invariant forall k :: 0 <= k < |nodesToTensors| ==>
          nodesToTensors[k] == if k < i then QueuedByPlan(graph, k) else if k == 0 then GivenTensors(graph) else {}
      {
        QueueOutputs(i);
        if !preserveAllTensors {
          refs, ok := ReleaseInputs(i, refs);
        }
      }
      ok := true;
    }

    method QueueOutputs(i: nat)
      requires GoodGraph() && Sized() && i < |graph.nodes|
      requires forall t :: 0 <= t < |allocNode| ==> allocNode[t] == AllocNodeAfter(graph, t, i)
      requires forall t :: 0 <= t < |deallocNode| ==>
        deallocNode[t] == DeallocNodeAfter(graph, actualTensorId, preserveAllTensors, i, 0, t)
      requires nodesToTensors[i] == if i == 0 then GivenTensors(graph) else {}
      modifies this`allocNode, this`nodesToTensors
      ensures Sized()
      ensures forall t :: 0 <= t < |allocNode| ==> allocNode[t] == AllocNodeAfter(graph, t, i + 1)
      ensures nodesToTensors == old(nodesToTensors)[i := QueuedByPlan(graph, i)]
    {
      var outputs := graph.nodes[i].outputs;
      ghost var starts, queues := allocNode, nodesToTensors;
      assert queues[i] + Present(outputs[..0]) == queues[i];
      for j := 0 to |outputs|
        invariant Sized()
        invariant forall t :: 0 <= t < |starts| ==>
          allocNode[t] == if starts[t] == NOT_ASSIGNED && t in outputs[..j] then i else starts[t]
        invariant nodesToTensors == queues[i := queues[i] + Present(outputs[..j])]
      {
        PresentStep(outputs, j);
        assert outputs[..j + 1] == outputs[..j] + [outputs[j]];
        var tensor := outputs[j];
        if tensor == OPTIONAL {
          assert Present(outputs[..j + 1]) == Present(outputs[..j]);
          continue;
        }
        nodesToTensors := nodesToTensors[i := nodesToTensors[i] + {tensor}];
        assert nodesToTensors[i] == queues[i] + Present(outputs[..j + 1]);
        DeallocImpliesAlloc(graph, actualTensorId, preserveAllTensors, i, tensor);
        var ok := AllocateAt(i, tensor);
      }
      assert outputs[..|outputs|] == outputs;
    }

    method ReleaseInputs(i: nat, counts: seq<int>) returns (refs: seq<int>, ok: bool)
      requires GoodGraph() && Sized() && i < |graph.nodes| && RootsAreTensors(graph, actualTensorId)
      requires |counts| == |graph.tensors| && !preserveAllTensors
      requires forall t :: 0 <= t < |counts| ==> counts[t] == Pins(graph, t) + UsesFrom(graph, actualTensorId, i, 0, t)
      requires forall t :: 0 <= t < |allocNode| ==> allocNode[t] == AllocNodeAfter(graph, t, i + 1)
      requires forall t :: 0 <= t < |deallocNode| ==>
        deallocNode[t] == DeallocNodeAfter(graph, actualTensorId, false, i, 0, t)
      modifies this`deallocNode
      ensures ok && Sized() && |refs| == |counts|
      ensures forall t :: 0 <= t < |refs| ==> refs[t] == Pins(graph, t) + UsesFrom(graph, actualTensorId, i + 1, 0, t)
      ensures forall t :: 0 <= t < |deallocNode| ==>
        deallocNode[t] == DeallocNodeAfter(graph, actualTensorId, false, i + 1, 0, t)
    {
      hide UsesFrom;
      hide DeallocNodeAfter;
      hide AllocNodeAfter;
      hide Pins;
      refs := counts;
      var inputs := graph.nodes[i].inputs;
      for j := 0 to |inputs|
        invariant Sized() && |refs| == |counts|
        invariant forall t :: 0 <= t < |refs| ==> refs[t] == Pins(graph, t) + UsesFrom(graph, actualTensorId, i, j, t)
        invariant forall t :: 0 <= t < |deallocNode| ==>
          deallocNode[t] == DeallocNodeAfter(graph, actualTensorId, false, i, j, t)
      {
        forall t {
          ReleaseStep(graph, actualTensorId, i, j, t);
        }
        if inputs[j] == OPTIONAL { continue; }
        var tensor := FindSharedTensor(inputs[j]);
        refs := refs[tensor := refs[tensor] - 1];
        if refs[tensor] == 0 {
          ok := DeallocateAt(i, tensor);
        }
      }
      ok := true;
      forall t {
        InputsEnd(graph, actualTensorId, i, t);
      }
    }

    /** Computes the lifetime of every tensor. No internal consistency check can fail. */
    method PlanAllocations() returns (ok: bool)
      requires GoodGraph()
      modifies this, arena, persistentArena
      ensures ok && Sized()
      ensures allocs == seq(|graph.tensors|, i => NO_ALLOC) && lastActiveNode == NOT_ASSIGNED
      ensures arena.Current() == Plan([], 0) && persistentArena.Current() == Plan([], 0)
      ensures forall t :: 0 <= t < |refcounts| ==> refcounts[t] == Pins(graph, t) + UsesFrom(graph, map[], 0, 0, t)
      ensures actualTensorId == InPlaceMap(graph, refcounts, preserveAllTensors, |graph.nodes|)
      ensures forall t :: 0 <= t < |allocNode| ==> allocNode[t] == AllocNode(graph, t)
      ensures forall t :: 0 <= t < |deallocNode| ==>
        deallocNode[t] == DeallocNode(graph, actualTensorId, preserveAllTensors, t)
      ensures forall i :: 0 <= i < |nodesToTensors| ==> nodesToTensors[i] == QueuedByPlan(graph, i)
    {
      ResetAllocations();
      data := seq(|graph.tensors|, i => Null);
      allocNode := seq(|graph.tensors|, i => NOT_ASSIGNED);
      deallocNode := seq(|graph.tensors|, i => NOT_ASSIGNED);
      nodesToTensors := seq(Max(|graph.nodes|, 1), i => {});
      refcounts := seq(|graph.tensors|, i => 0);
      ok := PinTensors();
      // The counts as they were before node inputs are added.
      var counts := refcounts;
      refcounts := CountUses(refcounts, map[]);
      IdentifyInPlaceTensors();
      counts := CountUses(counts, actualTensorId);
      ok := PlanLifetimes(counts);
    }

    // ----- placing tensors -----

    /** Tensors that own bytes of the arena of `kind` once the first `done` nodes are planned. */
    ghost function Owners(kind: AllocationType, done: int): set<int>
      requires Sized()
      reads this
    {
      OwnersWith(graph, actualTensorId, allocNode, kind, done, [])
    }

    ghost predicate Separate()
      reads this, arena.buffer, persistentArena.buffer
    {
      && arena != persistentArena && arena.buffer != persistentArena.buffer
      && arena.buffer.data != persistentArena.buffer.data
      && arena.buffer.alignment == persistentArena.buffer.alignment == DEFAULT_ARENA_ALIGNMENT
    }

    /** `live` and `persistent` are the tensors placed in the two arenas. */
    ghost predicate Placements(live: set<int>, persistent: set<int>, from: int)
      requires Sized() && tensorAlignment > 0
      reads this, arena, persistentArena
    {
      && Layout(arena.Current(), tensorAlignment, live, allocs, from)
      && Layout(persistentArena.Current(), tensorAlignment, persistent, allocs, 0)
      && Recorded(graph, allocNode, deallocNode, allocs, live, persistent)
    }

    /** The data pointer of `t` is its offset in the current block of its arena. */
    predicate Resolved(t: int)
      requires Sized() && graph.IsTensor(t)
      reads this, arena.buffer, persistentArena.buffer
    {
      var kind := graph.tensors[t].allocationType;
      && (kind.ArenaRw? && allocs[t].size != 0 ==> data[t] == Pointer(arena.buffer.data, allocs[t].offset))
      && (kind.ArenaRwPersistent? ==>
            data[t] == if allocs[t].size == 0 then Null else Pointer(persistentArena.buffer.data, allocs[t].offset))
    }

    /** The data pointer of an alias is that of the tensor whose buffer it keeps sharing. */
    predicate Follows(t: int)
      requires Sized()
      reads this, arena.buffer
    {
      KeepsAlias(graph, actualTensorId, t) && allocs[actualTensorId[t]].size != 0 ==>
        data[t] == Pointer(arena.buffer.data, allocs[actualTensorId[t]].offset)
    }

    /** The aliases of the first `done` nodes follow their owners. */
    ghost predicate AllFollow(done: int)
      requires Sized()
      reads this, arena.buffer
    {
      forall t :: KeepsAlias(graph, actualTensorId, t) && 0 <= allocNode[t] < done ==> Follows(t)
    }

    /** The arena tensors of the first `done` nodes that still are aliases fit the buffers of their owners. */
    ghost predicate AliasesSettled(done: int)
      requires Sized()
      reads this
    {
      Settled(graph, actualTensorId, allocNode, done)
    }

    /** Every buffer that is shared is reserved by the time an alias needs it. */
    ghost predicate OwnersFirst()
      requires Sized()
      reads this
    {
      forall t :: KeepsAlias(graph, actualTensorId, t) ==> 0 <= allocNode[actualTensorId[t]] <= allocNode[t]
    }

    ghost predicate AllResolved(done: int)
      requires Sized()
      reads this, arena.buffer, persistentArena.buffer
    {
      forall t :: t in Owners(ArenaRw, done) || t in Owners(ArenaRwPersistent, done) ==> Resolved(t)
    }

    ghost predicate Committed()
      reads arena, persistentArena, arena.buffer, persistentArena.buffer
    {
      && arena.committed && persistentArena.committed
      && arena.highWaterMark <= arena.buffer.data.Length
      && persistentArena.highWaterMark <= persistentArena.buffer.data.Length
    }

    ghost predicate Stable()
      reads this
    {
      && GoodGraph() && Sized()
      && 0 < tensorAlignment <= DEFAULT_ARENA_ALIGNMENT
      && RootsAreTensors(graph, actualTensorId) && Flat(actualTensorId)
      && QueuesMatch(graph, nodesToTensors, allocNode)
    }

    /** The state between calls of `ExecuteAllocations`: nodes below `done` are planned. */
    ghost predicate Ready(done: int)
      reads this, arena, persistentArena, arena.buffer, persistentArena.buffer
    {
      && Stable() && Separate() && 0 <= done <= |nodesToTensors|
      && (forall i, t :: done <= i < |graph.nodes| && graph.Scratches(i, t) ==> allocNode[t] == NOT_ASSIGNED)
      && Placements(Owners(ArenaRw, done), Owners(ArenaRwPersistent, done), done)
      && lastActiveNode == (if done == 0 then NOT_ASSIGNED else done - 1)
      && (done > 0 ==> Committed())
      && AllResolved(done)
    }

    /** Planning the lifetimes leaves the planner ready for the first range of nodes. */
    lemma ReadyAfterPlan()
      requires GoodGraph() && Sized() && Separate() && 0 < tensorAlignment <= DEFAULT_ARENA_ALIGNMENT
      requires graph.SingleProducer() && graph.DependencyOrder() && graph.PrivateTemporaries()
      requires allocs == seq(|graph.tensors|, i => NO_ALLOC) && lastActiveNode == NOT_ASSIGNED
      requires arena.Current() == Plan([], 0) && persistentArena.Current() == Plan([], 0)
      requires actualTensorId == InPlaceMap(graph, refcounts, preserveAllTensors, |graph.nodes|)
      requires forall t :: 0 <= t < |allocNode| ==> allocNode[t] == AllocNode(graph, t)
      requires forall i :: 0 <= i < |nodesToTensors| ==> nodesToTensors[i] == QueuedByPlan(graph, i)
      ensures Ready(0)
    {
      InPlaceMapSound(graph, refcounts, preserveAllTensors, |graph.nodes|);
      forall i, t | 0 <= i < |nodesToTensors|
        ensures t in nodesToTensors[i] <==> graph.IsTensor(t) && allocNode[t] == i
      {
        QueuedExactly(graph, i, t);
      }
      forall i, t | 0 <= i < |graph.nodes| && graph.Scratches(i, t)
        ensures allocNode[t] == NOT_ASSIGNED
      {
        assert !graph.Given(t);
      }
    }

    /** Registers the temporaries of the nodes in the range. */
    method QueueTemporaries(firstNode: int, lastNode: int)
      requires Stable() && 0 <= firstNode <= lastNode < |nodesToTensors| && graph.PrivateTemporaries()
      requires forall i, t :: firstNode <= i < |graph.nodes| && graph.Scratches(i, t) ==> allocNode[t] == NOT_ASSIGNED
      modifies this`allocNode, this`deallocNode, this`nodesToTensors
      ensures Stable()
      ensures LifetimesExtended(graph, preserveAllTensors, old(allocNode), old(deallocNode), allocNode, deallocNode,
        firstNode, lastNode)
    {
      var i := firstNode;
      while i <= lastNode && i < |graph.nodes|
        invariant firstNode <= i <= lastNode + 1 && (i <= |graph.nodes| || i == firstNode)
        invariant Stable() && |nodesToTensors| == old(|nodesToTensors|)
        invariant forall k, t :: firstNode <= k < i && k < |graph.nodes| && graph.Scratches(k, t) ==>
          allocNode[t] == k && deallocNode[t] == if preserveAllTensors then old(deallocNode[t]) else k
        invariant forall t :: graph.IsTensor(t) && !ScratchedIn(graph, firstNode, i, t) ==>
          allocNode[t] == old(allocNode[t]) && deallocNode[t] == old(deallocNode[t])
      {
        QueueTemporariesOf(i);
        forall t | graph.IsTensor(t) && !ScratchedIn(graph, firstNode, i + 1, t)
          ensures !graph.Scratches(i, t) && !ScratchedIn(graph, firstNode, i, t)
        {}
        i := i + 1;
      }
      forall k, t | lastNode < k < |graph.nodes| && graph.Scratches(k, t)
        ensures !ScratchedIn(graph, firstNode, lastNode + 1, t)
      {}
    }

    method QueueTemporariesOf(i: int)
      requires Stable() && 0 <= i < |graph.nodes|
      requires forall t :: graph.Scratches(i, t) ==> allocNode[t] == NOT_ASSIGNED
      modifies this`allocNode, this`deallocNode, this`nodesToTensors
      ensures Stable()
      ensures forall t :: graph.IsTensor(t) ==> allocNode[t] == if graph.Scratches(i, t) then i else old(allocNode[t])
      ensures forall t :: graph.IsTensor(t) ==>
        deallocNode[t] == if graph.Scratches(i, t) && !preserveAllTensors then i else old(deallocNode[t])
    {
      var temporaries := graph.nodes[i].temporaries;
      ghost var starts, ends := allocNode, deallocNode;
      for j := 0 to |temporaries|
        invariant Stable()
        invariant forall t :: 0 <= t < |starts| ==> allocNode[t] == if t in temporaries[..j] then i else starts[t]
        invariant forall t :: 0 <= t < |ends| ==>
          deallocNode[t] == if t in temporaries[..j] && !preserveAllTensors then i else ends[t]
      {
        assert temporaries[..j + 1] == temporaries[..j] + [temporaries[j]];
        var tensor := temporaries[j];
        assert graph.Scratches(i, tensor);
        allocNode := allocNode[tensor := i];
        nodesToTensors := nodesToTensors[i := nodesToTensors[i] + {tensor}];
        if !preserveAllTensors {
          deallocNode := deallocNode[tensor := i];
        }
      }
      assert temporaries[..|temporaries|] == temporaries;
    }

    // ----- the tensors of a range of nodes -----

    /** The queued tensors of the range; each queue is read in an arbitrary order. */
    method GetTensorsToAllocate(firstNode: int, lastNode: int) returns (list: seq<int>)
      requires Stable() && 0 <= firstNode <= lastNode < |nodesToTensors|
      ensures NoDuplicates(list)
      ensures forall t :: t in list <==> graph.IsTensor(t) && firstNode <= allocNode[t] <= lastNode
    {
      list := [];
      for i := firstNode to lastNode + 1
        invariant NoDuplicates(list)
        invariant forall t :: t in list <==> graph.IsTensor(t) && firstNode <= allocNode[t] < i
      {
        var elements := Elements(nodesToTensors[i]);
        NoDuplicatesConcat(list, elements);
        list := list + elements;
      }
    }

    /** Sorts by `Before`; tensors that compare equal may come in any order. */
    method CreateTensorAllocationVector(list: seq<int>) returns (sorted: seq<int>)
      requires Sized() && AllTensors(graph, list)
      ensures multiset(sorted) == multiset(list)
      ensures AllTensors(graph, sorted) && Ordered(graph, allocNode, deallocNode, sorted)
    {
      sorted := [];
      assert Ordered(graph, allocNode, deallocNode, sorted);
      hide Ordered;
      hide Before;
      for k := 0 to |list|
        invariant multiset(sorted) == multiset(list[..k])
        invariant AllTensors(graph, sorted) && Ordered(graph, allocNode, deallocNode, sorted)
      {
        assert list[..k + 1] == list[..k] + [list[k]];
        var x := list[k];
        var p := |sorted|;
        while p > 0 && Before(graph, allocNode, deallocNode, x, sorted[p - 1])
          invariant 0 <= p <= |sorted|
          invariant forall i :: p <= i < |sorted| ==> Before(graph, allocNode, deallocNode, x, sorted[i])
        {
          p := p - 1;
        }
        InsertOrdered(graph, allocNode, deallocNode, sorted, x, p);
        InsertingAdds(sorted, x, p);
        sorted := sorted[..p] + [x] + sorted[p..];
      }
      assert list[..|list|] == list;
    }

    /** Reserves arena bytes for one tensor, unless it shares the buffer of another. */
    method PlaceTensor(t: int, ghost live: set<int>, ghost persistent: set<int>, from: int) returns (ok: bool)
      requires Stable() && Separate() && Placements(live, persistent, from)
      requires graph.IsTensor(t) && t !in live && t !in persistent && from <= allocNode[t] && 0 <= allocNode[t]
      requires graph.tensors[t].allocationType.ArenaRw? ==> graph.tensors[t].bytes > 0
      modifies this`allocs, this`actualTensorId, arena`activeAllocs, arena`highWaterMark
      modifies persistentArena`activeAllocs, persistentArena`highWaterMark
      ensures ok && Stable()
      ensures Placements(live + if Owns(graph, actualTensorId, t, ArenaRw) then {t} else {},
                         persistent + if Owns(graph, actualTensorId, t, ArenaRwPersistent) then {t} else {}, from)
      ensures forall u :: graph.IsTensor(u) && u != t ==> allocs[u] == old(allocs[u])
      ensures actualTensorId == if t in old(actualTensorId) && !CanHold(graph, old(actualTensorId)[t], t)
        then old(actualTensorId) - {t} else old(actualTensorId)
    {
      var tensor := graph.tensors[t];
      ok := true;
      hide Layout;
      hide Recorded;
      hide QueuesMatch;
      hide RootsAreTensors;
      hide Flat;
      assert live + {} == live && persistent + {} == persistent;
      DroppedAlias(graph, actualTensorId, t);
      AliasRoot(graph, actualTensorId, t);
      if t in actualTensorId {
        var root := graph.tensors[actualTensorId[t]];
        if root.allocationType != ArenaRw || root.bytes != tensor.bytes {
          actualTensorId := actualTensorId - {t};
        } else {
          return;
        }
      }
      if tensor.allocationType == ArenaRw {
        ok := AllocateRw(t, live, persistent, from);
      }
      if tensor.allocationType == ArenaRwPersistent && allocs[t].size == 0 {
        if allocs[t].size < tensor.bytes {
          ok := AllocatePersistent(t, live, persistent, from);
        }
      }
    }

    method AllocateRw(t: int, ghost live: set<int>, ghost persistent: set<int>, from: int) returns (ok: bool)
      requires Stable() && Separate() && Placements(live, persistent, from)
      requires graph.IsTensor(t) && t !in live && t !in persistent && from <= allocNode[t] && graph.tensors[t].bytes > 0
      modifies this`allocs, arena`activeAllocs, arena`highWaterMark
      ensures ok && Stable() && Placements(live + {t}, persistent, from)
      ensures forall u :: graph.IsTensor(u) && u != t ==> allocs[u] == old(allocs[u])
    {
      hide Layout;
      hide Recorded;
      hide QueuesMatch;
      hide RootsAreTensors;
      hide Flat;
      ghost var was, before := arena.Current(), allocs;
      var alloc: Alloc;
      LayoutIsSorted(was, tensorAlignment, live, before, from);
      ok, alloc := arena.Allocate(tensorAlignment, graph.tensors[t].bytes, t, allocNode[t], deallocNode[t]);
      allocs := allocs[t := alloc];
      LayoutAllocate(was, tensorAlignment, live, before, from,
          Request(graph.tensors[t].bytes, t, allocNode[t], deallocNode[t]));
      LayoutFrame(persistentArena.Current(), tensorAlignment, persistent, before, 0, t, alloc);
      RecordLive(graph, allocNode, deallocNode, before, live, persistent, t, alloc);
    }

    /** Persistent tensors are alive at every node from their allocation on. */
    method AllocatePersistent(t: int, ghost live: set<int>, ghost persistent: set<int>, from: int) returns (ok: bool)
      requires Stable() && Separate() && Placements(live, persistent, from)
      requires graph.IsTensor(t) && t !in live && t !in persistent && 0 <= allocNode[t] && graph.tensors[t].bytes > 0
      modifies this`allocs, persistentArena`activeAllocs, persistentArena`highWaterMark
      ensures ok && Stable() && Placements(live, persistent + {t}, from)
      ensures forall u :: graph.IsTensor(u) && u != t ==> allocs[u] == old(allocs[u])
    {
      hide Layout;
      hide Recorded;
      hide QueuesMatch;
      hide RootsAreTensors;
      hide Flat;
      ghost var was, before := persistentArena.Current(), allocs;
      var alloc: Alloc;
      LayoutIsSorted(was, tensorAlignment, persistent, before, 0);
      ok, alloc := persistentArena.Allocate(tensorAlignment, graph.tensors[t].bytes, t, allocNode[t], NOT_ASSIGNED);
      allocs := allocs[t := alloc];
      LayoutAllocate(was, tensorAlignment, persistent, before, 0,
          Request(graph.tensors[t].bytes, t, allocNode[t], NOT_ASSIGNED));
      LayoutFrame(arena.Current(), tensorAlignment, live, before, from, t, alloc);
      RecordPersistent(graph, allocNode, deallocNode, before, live, persistent, t, alloc);
    }

    /** Reserves bytes for the tensors queued in the range that do not have enough yet. */
    method CalculateAllocations(firstNode: int, lastNode: int) returns (ok: bool, tensorsAllocated: seq<int>)
      requires Stable() && Separate() && 0 <= firstNode <= lastNode < |nodesToTensors|
      requires Placements(Owners(ArenaRw, firstNode), Owners(ArenaRwPersistent, firstNode), firstNode)
      requires lastActiveNode == if firstNode == 0 then NOT_ASSIGNED else firstNode - 1
      modifies this`allocs, this`actualTensorId, this`lastActiveNode
      modifies arena`activeAllocs, arena`highWaterMark, persistentArena`activeAllocs, persistentArena`highWaterMark
      ensures ok && Stable() && lastActiveNode == lastNode
      ensures Placements(Owners(ArenaRw, lastNode + 1), Owners(ArenaRwPersistent, lastNode + 1), lastNode + 1)
      ensures Selected(graph, allocNode, old(allocs), firstNode, lastNode, tensorsAllocated)
      ensures OnlyPlaced(graph, old(allocs), allocs, tensorsAllocated)
      ensures Shrunk(graph, old(actualTensorId), actualTensorId, tensorsAllocated)
    {
      hide OwnersWith;
      hide Layout;
      hide Recorded;
      hide QueuesMatch;
      hide RootsAreTensors;
      hide Flat;
      hide NoDuplicates;
      hide Selected;
      hide OnlyPlaced;
      hide Shrunk;
      UnplacedBeyond(graph, actualTensorId, allocNode, deallocNode, allocs, firstNode);
      NothingPlaced(graph, allocs, actualTensorId);
      tensorsAllocated := SelectRange(firstNode, lastNode);
      ok := true;
      if tensorsAllocated == [] {
        RangeIsEmpty(firstNode, lastNode);
        lastActiveNode := lastNode;
        return;
      }
      tensorsAllocated := PlaceSelected(firstNode, lastNode, tensorsAllocated);
      lastActiveNode := lastNode;
    }

    method SelectRange(firstNode: int, lastNode: int) returns (selected: seq<int>)
      requires Stable() && 0 <= firstNode <= lastNode < |nodesToTensors|
      ensures NoDuplicates(selected) && AllTensors(graph, selected)
      ensures Selected(graph, allocNode, allocs, firstNode, lastNode, selected)
    {
      hide NoDuplicates;
      hide QueuesMatch;
      hide RootsAreTensors;
      hide Flat;
      var queued := GetTensorsToAllocate(firstNode, lastNode);
      selected := SelectTensors(queued);
    }

    /** A range in which nothing needs bytes leaves the placements as they are. */
    lemma RangeIsEmpty(firstNode: int, lastNode: int)
      requires Stable() && 0 <= firstNode <= lastNode
      requires Placements(Owners(ArenaRw, firstNode), Owners(ArenaRwPersistent, firstNode), firstNode)
      requires Selected(graph, allocNode, allocs, firstNode, lastNode, [])
      requires forall t :: graph.IsTensor(t) && firstNode <= allocNode[t] ==> allocs[t].size == 0
      ensures Placements(Owners(ArenaRw, lastNode + 1), Owners(ArenaRwPersistent, lastNode + 1), lastNode + 1)
    {
      hide Layout;
      hide Recorded;
      hide QueuesMatch;
      hide RootsAreTensors;
      hide Flat;
      RangeOwners(graph, actualTensorId, actualTensorId, allocNode, allocs, ArenaRw, firstNode, lastNode, []);
      RangeOwners(graph, actualTensorId, actualTensorId, allocNode, allocs, ArenaRwPersistent, firstNode, lastNode, []);
      LayoutLater(arena.Current(), tensorAlignment, Owners(ArenaRw, lastNode + 1), allocs, firstNode, lastNode + 1);
    }

    method PlaceSelected(firstNode: int, lastNode: int, selected: seq<int>) returns (sorted: seq<int>)
      requires Stable() && Separate() && 0 <= firstNode <= lastNode < |nodesToTensors|
      requires Placements(Owners(ArenaRw, firstNode), Owners(ArenaRwPersistent, firstNode), firstNode)
      requires lastActiveNode == if firstNode == 0 then NOT_ASSIGNED else firstNode - 1
      requires NoDuplicates(selected) && AllTensors(graph, selected)
      requires Selected(graph, allocNode, allocs, firstNode, lastNode, selected)
      requires forall t :: graph.IsTensor(t) && firstNode <= allocNode[t] ==> allocs[t].size == 0
      modifies this`allocs, this`actualTensorId, this`lastActiveNode
      modifies arena`activeAllocs, arena`highWaterMark, persistentArena`activeAllocs, persistentArena`highWaterMark
      ensures Stable() && Placements(Owners(ArenaRw, lastNode + 1), Owners(ArenaRwPersistent, lastNode + 1),
        lastNode + 1)
      ensures Selected(graph, allocNode, old(allocs), firstNode, lastNode, sorted)
      ensures OnlyPlaced(graph, old(allocs), allocs, sorted)
      ensures Shrunk(graph, old(actualTensorId), actualTensorId, sorted)
    {
      hide Layout;
      hide Recorded;
      hide QueuesMatch;
      hide RootsAreTensors;
      hide Flat;
      hide NoDuplicates;
      ghost var before, aliases := allocs, actualTensorId;
      ForgetEnded(firstNode);
      sorted := CreateTensorAllocationVector(selected);
      NoDuplicatesPermuted(selected, sorted);
      PlaceTensors(firstNode, sorted);
      RangeOwners(graph, aliases, actualTensorId, allocNode, before, ArenaRw, firstNode, lastNode, sorted);
      RangeOwners(graph, aliases, actualTensorId, allocNode, before, ArenaRwPersistent, firstNode, lastNode, sorted);
      LayoutLater(arena.Current(), tensorAlignment, Owners(ArenaRw, lastNode + 1), allocs, firstNode, lastNode + 1);
    }

    /** Drops the active entries that end before the range. */
    method ForgetEnded(firstNode: int)
      requires Stable() && Separate() && 0 <= firstNode < |nodesToTensors|
      requires Placements(Owners(ArenaRw, firstNode), Owners(ArenaRwPersistent, firstNode), firstNode)
      requires lastActiveNode == if firstNode == 0 then NOT_ASSIGNED else firstNode - 1
      modifies this`lastActiveNode, arena`activeAllocs
      ensures Stable() && Separate()
      ensures Placements(Owners(ArenaRw, firstNode), Owners(ArenaRwPersistent, firstNode), firstNode)
    {
      if firstNode < lastActiveNode {
        arena.ResetAllocs();
        lastActiveNode := firstNode;
      } else {
        LayoutPurge(arena.Current(), tensorAlignment, Owners(ArenaRw, firstNode), allocs, firstNode, firstNode);
        arena.PurgeActiveAllocs(firstNode);
      }
    }

    method SelectTensors(queued: seq<int>) returns (list: seq<int>)
      requires Sized() && AllTensors(graph, queued) && NoDuplicates(queued)
      ensures NoDuplicates(list) && AllTensors(graph, list)
      ensures forall t :: t in list <==> t in queued && NeedsBytes(graph, allocs, t)
    {
      list := [];
      for k := 0 to |queued|
        invariant NoDuplicates(list) && AllTensors(graph, list)
        invariant forall t :: t in list <==> t in queued[..k] && NeedsBytes(graph, allocs, t)
      {
        assert queued[..k + 1] == queued[..k] + [queued[k]];
        assert queued[k] !in queued[..k];
        var tensor := graph.tensors[queued[k]];
        if tensor.allocationType == ArenaRw {
          if allocs[queued[k]].size < tensor.bytes {
            NoDuplicatesConcat(list, [queued[k]]);
            list := list + [queued[k]];
          }
        } else if tensor.allocationType == ArenaRwPersistent {
          NoDuplicatesConcat(list, [queued[k]]);
          list := list + [queued[k]];
        }
      }
      assert queued[..|queued|] == queued;
    }

    method PlaceTensors(firstNode: int, list: seq<int>)
      requires Stable() && Separate() && 0 <= firstNode
      requires NoDuplicates(list) && AllTensors(graph, list)
      requires forall t :: t in list ==> firstNode <= allocNode[t] && NeedsBytes(graph, allocs, t)
      requires Placements(Owners(ArenaRw, firstNode), Owners(ArenaRwPersistent, firstNode), firstNode)
      modifies this`allocs, this`actualTensorId
      modifies arena`activeAllocs, arena`highWaterMark, persistentArena`activeAllocs, persistentArena`highWaterMark
      ensures Stable()
      ensures Placements(OwnersWith(graph, actualTensorId, allocNode, ArenaRw, firstNode, list),
                         OwnersWith(graph, actualTensorId, allocNode, ArenaRwPersistent, firstNode, list), firstNode)
      ensures OnlyPlaced(graph, old(allocs), allocs, list)
      ensures Shrunk(graph, old(actualTensorId), actualTensorId, list)
    {
      hide Layout;
      hide Recorded;
      hide QueuesMatch;
      hide RootsAreTensors;
      hide Flat;
      hide OnlyPlaced;
      hide Shrunk;
      hide OwnersWith;
      hide CanHold;
      NothingPlaced(graph, allocs, actualTensorId);
      assert list[..0] == [];
      ghost var allocs0, actual0 := allocs, actualTensorId;
      for k := 0 to |list|
        invariant Stable() && Separate()
        invariant Placements(OwnersWith(graph, actualTensorId, allocNode, ArenaRw, firstNode, list[..k]),
                             OwnersWith(graph, actualTensorId, allocNode, ArenaRwPersistent, firstNode, list[..k]),
                                 firstNode)
        invariant OnlyPlaced(graph, old(allocs), allocs, list[..k])
        invariant Shrunk(graph, old(actualTensorId), actualTensorId, list[..k])
      {
        var t := list[k];
        assert list[..k + 1] == list[..k] + [t];
        assert t in list && t !in list[..k];
        ghost var before := actualTensorId;
        ghost var live := OwnersWith(graph, before, allocNode, ArenaRw, firstNode, list[..k]);
        ghost var persistent := OwnersWith(graph, before, allocNode, ArenaRwPersistent, firstNode, list[..k]);
        OwnersStep(graph, before, before, allocNode, ArenaRw, firstNode, list[..k], t);
        OwnersStep(graph, before, before, allocNode, ArenaRwPersistent, firstNode, list[..k], t);
        ghost var records := allocs;
        var ok := PlaceTensor(t, live, persistent, firstNode);
        PlacedStep(graph, allocs0, records, allocs, actual0, before, actualTensorId, list[..k], t);
        OwnersStep(graph, before, actualTensorId, allocNode, ArenaRw, firstNode, list[..k], t);
        OwnersStep(graph, before, actualTensorId, allocNode, ArenaRwPersistent, firstNode, list[..k], t);
      }
      assert list[..|list|] == list;
    }

    // ----- committing and resolving -----

    method Commit() returns (reallocated: bool)
      requires Separate()
      modifies arena`committed, persistentArena`committed, arena.buffer, persistentArena.buffer
      ensures Separate() && Committed()
      ensures !reallocated ==>
        && arena.buffer.data == old(arena.buffer.data)
        && persistentArena.buffer.data == old(persistentArena.buffer.data)
      ensures old(arena.buffer.data[..]) <= arena.buffer.data[..]
      ensures old(persistentArena.buffer.data[..]) <= persistentArena.buffer.data[..]
      ensures arena.buffer.data == old(arena.buffer.data) || fresh(arena.buffer.data)
      ensures persistentArena.buffer.data == old(persistentArena.buffer.data) || fresh(persistentArena.buffer.data)
    {
      var arenaReallocated := arena.Commit();
      var persistentReallocated := persistentArena.Commit();
      reallocated := arenaReallocated || persistentReallocated;
    }

    predicate SameArena(a: int, b: int)
      requires graph.IsTensor(a) && graph.IsTensor(b)
    {
      graph.tensors[a].InArena() && graph.tensors[a].allocationType == graph.tensors[b].allocationType
    }

    /** Every allocation record lies inside the committed blocks. */
    ghost predicate RecordsFit()
      requires Sized()
      reads this, arena, persistentArena, arena.buffer, persistentArena.buffer
    {
      && arena.committed && persistentArena.committed
      && (forall t :: graph.IsTensor(t) && graph.tensors[t].allocationType == ArenaRw ==>
            allocs[t].offset + allocs[t].size <= arena.buffer.data.Length)
      && (forall t :: graph.IsTensor(t) && graph.tensors[t].allocationType == ArenaRwPersistent ==>
            allocs[t].offset + allocs[t].size <= persistentArena.buffer.data.Length)
    }

    /** Sets the data pointer of a tensor; a tensor sharing a buffer gets its owner's pointer. */
    method ResolveTensorAllocation(t: int) returns (ok: bool)
      requires Stable() && Separate() && RecordsFit() && graph.IsTensor(t)
      modifies this`data
      ensures ok && Stable()
      ensures forall u :: graph.IsTensor(u) && (u !in actualTensorId || u != t) ==>
        data[u] == old(data[u]) || Resolved(u)
      ensures t !in actualTensorId ==> Resolved(t)
      ensures t in actualTensorId && SameArena(actualTensorId[t], t) ==>
        data[t] == data[actualTensorId[t]] && Resolved(actualTensorId[t])
      ensures forall u :: u in actualTensorId && u != t ==> data[u] == old(data[u])
      decreases t in actualTensorId
    {
      var root := if t in actualTensorId then actualTensorId[t] else t;
      if root != t && SameArena(root, t) {
        ok := ResolveTensorAllocation(root);
        data := data[t := data[root]];
        return;
      }
      ok := true;
      var kind := graph.tensors[t].allocationType;
      if kind == ArenaRw && allocs[t].size != 0 {
        var pointer: Pointer;
        ok, pointer := arena.ResolveAlloc(allocs[t]);
        data := data[t := pointer];
      }
      if kind == ArenaRwPersistent {
        var pointer: Pointer;
        ok, pointer := persistentArena.ResolveAlloc(allocs[t]);
        data := data[t := pointer];
      }
    }

    lemma PlacementsFit(live: set<int>, persistent: set<int>, from: int)
      requires Stable() && Committed() && Placements(live, persistent, from)
      requires forall t :: t in live ==> graph.tensors[t].allocationType == ArenaRw
      requires forall t :: t in persistent ==> graph.tensors[t].allocationType == ArenaRwPersistent
      ensures RecordsFit()
    {}

    /** Resolves the listed tensors; pointers that were right stay right. */
    method ResolveAll(list: seq<int>) returns (ok: bool)
      requires Stable() && Separate() && RecordsFit() && AllTensors(graph, list)
      modifies this`data
      ensures ok && Stable()
      ensures forall u :: graph.IsTensor(u) && u !in actualTensorId && (u in list || old(Resolved(u))) ==> Resolved(u)
      ensures forall u :: KeepsAlias(graph, actualTensorId, u) && (u in list || old(Follows(u))) ==> Follows(u)
    {
      ok := true;
      for k := 0 to |list|
        invariant ok && Stable()
        invariant forall u :: KeepsAlias(graph, actualTensorId, u) && (u in list[..k] || old(Follows(u))) ==> Follows(u)
        invariant forall u :: graph.IsTensor(u) && u !in actualTensorId && (u in list[..k] || old(Resolved(u))) ==>
          Resolved(u)
      {
        assert list[..k + 1] == list[..k] + [list[k]];
        ok := ResolveTensorAllocation(list[k]);
      }
      assert list[..|list|] == list;
    }

    /** The tensor has bytes of its own, or those of its owner. */
    predicate HasBytes(t: int)
      requires Sized() && RootsAreTensors(graph, actualTensorId) && graph.IsTensor(t)
      reads this
    {
      allocs[Owner(graph, actualTensorId, t)].size == graph.tensors[t].bytes
    }

    /** Between ranges every planned arena tensor has its bytes, exactly if no persistent tensor still is an alias. */
    lemma BytesIffNoneLost(done: int)
      requires Ready(done) && AliasesSettled(done) && OwnersFirst()
      ensures (forall t :: OnArena(graph, t) && 0 <= allocNode[t] < done ==> HasBytes(t)) <==>
        forall t :: OnArena(graph, t) && 0 <= allocNode[t] < done ==> !IsLost(graph, actualTensorId, t)
    {
      hide Layout;
      hide QueuesMatch;
      forall t | OnArena(graph, t) && 0 <= allocNode[t] < done
        ensures HasBytes(t) <==> !IsLost(graph, actualTensorId, t)
      {
        BytesIfNotLost(done, t);
      }
    }

    lemma BytesIfNotLost(done: int, t: int)
      requires Ready(done) && AliasesSettled(done) && OwnersFirst() && OnArena(graph, t) && 0 <= allocNode[t] < done
      ensures HasBytes(t) <==> !IsLost(graph, actualTensorId, t)
    {
      hide Layout;
      hide QueuesMatch;
      var owner := Owner(graph, actualTensorId, t);
      if !IsLost(graph, actualTensorId, t) {
        assert owner in Owners(graph.tensors[owner].allocationType, done);
      }
    }

    /** Registers the temporaries of the range and reserves its bytes. */
    method ReserveRange(firstNode: int, lastNode: int) returns (tensorsAllocated: seq<int>)
      requires Ready(firstNode) && firstNode <= lastNode < |nodesToTensors| && graph.PrivateTemporaries()
      modifies this`allocs, this`actualTensorId, this`lastActiveNode, this`allocNode, this`deallocNode,
          this`nodesToTensors
      modifies arena`activeAllocs, arena`highWaterMark, persistentArena`activeAllocs, persistentArena`highWaterMark
      ensures Stable() && lastActiveNode == lastNode && AllTensors(graph, tensorsAllocated)
      ensures LifetimesExtended(graph, preserveAllTensors, old(allocNode), old(deallocNode), allocNode, deallocNode,
        firstNode, lastNode)
      ensures Placements(Owners(ArenaRw, lastNode + 1), Owners(ArenaRwPersistent, lastNode + 1), lastNode + 1)
      ensures SelectedOrPlaced(graph, old(actualTensorId), actualTensorId, old(allocNode), allocNode, firstNode,
        lastNode, tensorsAllocated)
      ensures forall t :: t in tensorsAllocated ==> firstNode <= allocNode[t]
      ensures forall t :: OnArena(graph, t) && t in actualTensorId && firstNode <= allocNode[t] <= lastNode ==>
        t in tensorsAllocated
      ensures OnlyPlaced(graph, old(allocs), allocs, tensorsAllocated)
      ensures Shrunk(graph, old(actualTensorId), actualTensorId, tensorsAllocated)
    {
      ghost var starts, ends, before, aliases := allocNode, deallocNode, allocs, actualTensorId;
      QueueTemporaries(firstNode, lastNode);
      TemporariesAreNew(graph, preserveAllTensors, actualTensorId, starts, ends, allocNode, deallocNode, allocs,
          firstNode, lastNode);
      UnplacedBeyond(graph, actualTensorId, allocNode, deallocNode, allocs, firstNode);
      var ok;
      ok, tensorsAllocated := CalculateAllocations(firstNode, lastNode);
      AllSelectedOrPlaced(graph, aliases, actualTensorId, starts, allocNode, before, firstNode, lastNode,
          tensorsAllocated);
    }

    method PlanRange(firstNode: int, lastNode: int) returns (tensorsAllocated: seq<int>)
      requires Ready(firstNode) && firstNode <= lastNode < |nodesToTensors| && graph.PrivateTemporaries()
      modifies this`allocs, this`actualTensorId, this`lastActiveNode, this`allocNode, this`deallocNode,
          this`nodesToTensors
      modifies arena`activeAllocs, arena`highWaterMark, persistentArena`activeAllocs, persistentArena`highWaterMark
      ensures Stable() && lastActiveNode == lastNode && AllTensors(graph, tensorsAllocated)
      ensures LifetimesExtended(graph, preserveAllTensors, old(allocNode), old(deallocNode), allocNode, deallocNode,
        firstNode, lastNode)
      ensures Placements(Owners(ArenaRw, lastNode + 1), Owners(ArenaRwPersistent, lastNode + 1), lastNode + 1)
      ensures forall t :: t in Owners(ArenaRw, lastNode + 1) || t in Owners(ArenaRwPersistent, lastNode + 1) ==>
        t in tensorsAllocated || Resolved(t)
      ensures old(AllFollow(firstNode) && OwnersFirst()) ==> forall t ::
        KeepsAlias(graph, actualTensorId, t) && 0 <= allocNode[t] <= lastNode ==> t in tensorsAllocated || Follows(t)
      ensures forall t :: graph.IsTensor(t) && 0 <= old(allocNode[t]) < firstNode ==> allocs[t] == old(allocs[t])
      ensures SameOwners(graph, actualTensorId, old(actualTensorId))
      ensures forall t :: t in actualTensorId ==>
        t in old(actualTensorId) && actualTensorId[t] == old(actualTensorId)[t]
      ensures old(AliasesSettled(firstNode)) ==> AliasesSettled(lastNode + 1)
    {
      hide Layout;
      hide Recorded;
      hide QueuesMatch;
      hide Flat;
      hide Settled;
      hide Shrunk;
      hide LifetimesExtended;
      ghost var starts, ends, aliases := allocNode, deallocNode, actualTensorId;
      tensorsAllocated := ReserveRange(firstNode, lastNode);
      RangeSettles(graph, preserveAllTensors, aliases, actualTensorId, starts, ends, allocNode, deallocNode, firstNode,
                   lastNode, tensorsAllocated);
      ShrunkIsPart(graph, aliases, actualTensorId, tensorsAllocated);
      forall t | graph.IsTensor(t) && 0 <= old(allocNode[t]) < firstNode
        ensures allocs[t] == old(allocs[t])
      {
        LifetimesStay(graph, preserveAllTensors, starts, ends, allocNode, deallocNode, firstNode, lastNode, t);
      }
      forall t | (t in Owners(ArenaRw, lastNode + 1) || t in Owners(ArenaRwPersistent, lastNode + 1))
          && t !in tensorsAllocated
        ensures Resolved(t)
      {
        assert old(Resolved(t));
        assert allocs[t] == old(allocs[t]);
      }
    }

    /** Plans, commits and resolves the tensors of the next range of nodes. Growing the blocks keeps
        their contents, and every planned tensor's pointer follows its block. */
    method ExecuteAllocations(firstNode: int, lastNode: int) returns (ok: bool)
      requires Ready(firstNode) && firstNode <= lastNode < |nodesToTensors| && graph.PrivateTemporaries()
      modifies this`allocs, this`actualTensorId, this`lastActiveNode, this`allocNode, this`deallocNode,
          this`nodesToTensors, this`data
      modifies arena, persistentArena, arena.buffer, persistentArena.buffer
      ensures ok && Ready(lastNode + 1)
      ensures old(arena.buffer.data[..]) <= arena.buffer.data[..]
      ensures old(persistentArena.buffer.data[..]) <= persistentArena.buffer.data[..]
      ensures arena.buffer.data == old(arena.buffer.data) || fresh(arena.buffer.data)
      ensures persistentArena.buffer.data == old(persistentArena.buffer.data) || fresh(persistentArena.buffer.data)
      ensures forall t :: graph.IsTensor(t) && 0 <= old(allocNode[t]) < firstNode ==> allocs[t] == old(allocs[t])
      ensures LifetimesExtended(graph, preserveAllTensors, old(allocNode), old(deallocNode), allocNode, deallocNode,
        firstNode, lastNode)
      ensures SameOwners(graph, actualTensorId, old(actualTensorId))
      ensures forall t :: t in actualTensorId ==>
        t in old(actualTensorId) && actualTensorId[t] == old(actualTensorId)[t]
      ensures old(AliasesSettled(firstNode)) ==> AliasesSettled(lastNode + 1)
      ensures old(AllFollow(firstNode) && OwnersFirst()) ==> AllFollow(lastNode + 1)
    {
      hide Layout;
      hide Recorded;
      hide QueuesMatch;
      hide RootsAreTensors;
      hide Flat;
      hide OwnersWith;
      hide KeepsAlias;
      hide Owner;
      hide ArenaPlanner.AllFollow;
      hide ArenaPlanner.OwnersFirst;
      hide Settled;
      hide ArenaPlanner.Resolved;
      var tensorsAllocated := PlanRange(firstNode, lastNode);
      ok := CommitAndResolve(firstNode, lastNode, tensorsAllocated);
    }

    method CommitAndResolve(firstNode: int, lastNode: int, tensorsAllocated: seq<int>) returns (ok: bool)
      requires Stable() && Separate() && 0 <= firstNode <= lastNode < |nodesToTensors|
        && AllTensors(graph, tensorsAllocated)
      requires Placements(Owners(ArenaRw, lastNode + 1), Owners(ArenaRwPersistent, lastNode + 1), lastNode + 1)
      requires forall t :: t in Owners(ArenaRw, lastNode + 1) || t in Owners(ArenaRwPersistent, lastNode + 1) ==>
        t in tensorsAllocated || Resolved(t)
      modifies this`data, arena`committed, persistentArena`committed, arena.buffer, persistentArena.buffer
      ensures ok && Stable() && Separate() && Committed() && AllResolved(lastNode + 1)
      ensures (forall t :: KeepsAlias(graph, actualTensorId, t) && 0 <= allocNode[t] <= lastNode ==>
          t in tensorsAllocated || old(Follows(t))) ==> AllFollow(lastNode + 1)
      ensures old(arena.buffer.data[..]) <= arena.buffer.data[..]
      ensures old(persistentArena.buffer.data[..]) <= persistentArena.buffer.data[..]
      ensures arena.buffer.data == old(arena.buffer.data) || fresh(arena.buffer.data)
      ensures persistentArena.buffer.data == old(persistentArena.buffer.data) || fresh(persistentArena.buffer.data)
    {
      var reallocated := Commit();
      PlacementsFit(Owners(ArenaRw, lastNode + 1), Owners(ArenaRwPersistent, lastNode + 1), lastNode + 1);
      if reallocated {
        var all := seq(|graph.tensors|, i => i);
        assert forall t :: graph.IsTensor(t) ==> all[t] == t;
        ok := ResolveAll(all);
      } else {
        ok := ResolveAll(tensorsAllocated);
      }
    }
  }
}
