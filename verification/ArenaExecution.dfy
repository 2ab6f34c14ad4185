/** Running a graph in the shared arenas gives the tensor contents of running it with private storage.

  Operators are arbitrary functions from input contents to output and temporary contents. The
  interpreter plans and commits one range of nodes at a time, as `Subgraph::Invoke` does, and runs
  the range before planning the next, so blocks may grow while tensors hold data. */
module ArenaExecution {
  import opened Bytes

  import opened Graphs

  import opened GraphExecution

  import opened Lifetimes

  import opened InPlaceSharing

  import opened MemoryArena

  import opened Planning

  // ----- what the planner is asked to preserve -----

  /** `t` holds data before node `i` runs. */
  ghost predicate HasData(g: Graph, t: int, i: int) {
    !OnArena(g, t) || g.Given(t) || exists k :: 0 <= k < i && k < |g.nodes| && g.Writes(k, t)
  }

  // ----- shared storage: a plan and the memory it divides -----

  datatype View = View(graph: Graph, preserve: bool, aliases: map<int, int>, allocs: seq<Alloc>, allocNode: seq<int>,
                       deallocNode: seq<int>, rw: seq<byte>, persistent: seq<byte>, external: Store) {

    predicate Sized() {
      |allocs| == |allocNode| == |deallocNode| == |external| == |graph.tensors|
    }

    predicate InRw(t: int)
      requires graph.IsTensor(t)
    {
      graph.tensors[t].allocationType == ArenaRw
    }

    function Block(t: int): seq<byte>
      requires graph.IsTensor(t)
    {
      if InRw(t) then rw else persistent
    }

    /** The tensor whose bytes `t` shares, or `t` itself. */
    function Home(t: int): int { Owner(graph, aliases, t) }

    function Homes(ids: seq<int>): (r: seq<int>)
      requires forall j :: 0 <= j < |ids| ==> graph.IsTensorOrOptional(ids[j])
      ensures |r| == |ids| && forall j :: 0 <= j < |r| ==> r[j] == Home(ids[j]) && graph.IsTensorOrOptional(r[j])
    {
      Owners(graph, aliases, ids)
    }

    /** The bytes the plan assigned to `t`, or its own storage when it needs none. */
    function Contents(t: int): seq<byte>
      requires Sized() && graph.IsTensor(t)
    {
      if OnArena(graph, t) then Slice(Block(t), allocs[t]) else external[t]
    }

    function Write(t: int, value: seq<byte>): (v: View)
      requires Sized() && graph.IsTensor(t)
      requires OnArena(graph, t) ==> allocs[t].offset + |value| <= |Block(t)|
      ensures v.Sized()
    {
      if !OnArena(graph, t) then this.(external := external[t := value])
      else if InRw(t) then this.(rw := Poked(rw, allocs[t].offset, value))
      else this.(persistent := Poked(persistent, allocs[t].offset, value))
    }

    /** The planner has given `t` bytes of its own by the time `done` nodes are planned. */
    predicate PlacedBy(t: int, done: int)
      requires Sized()
    {
      OnArena(graph, t) && Home(t) == t && 0 <= allocNode[t] < done
    }

    predicate WellPlaced(t: int)
      requires Sized() && graph.IsTensor(t)
    {
      && allocs[t].size == graph.tensors[t].bytes
      && allocs[t].offset + allocs[t].size <= |Block(t)|
      && allocs[t].firstNode == allocNode[t]
      && allocs[t].lastNode == if InRw(t) then deallocNode[t] else NOT_ASSIGNED
    }

    /** Every placed tensor has room, and tensors that live together hold disjoint bytes. */
    ghost predicate Laid(done: int) {
      && Sized()
      && (forall t :: PlacedBy(t, done) ==> WellPlaced(t))
      && (forall t, u :: PlacedBy(t, done) && PlacedBy(u, done) && t != u && InRw(t) == InRw(u) ==>
            Compatible(allocs[t], allocs[u]))
    }

    /** What planning establishes for the first `done` nodes. */
    ghost predicate Sound(done: int) {
      && Laid(done) && Runnable(graph) && LifetimesKnown(graph, preserve, allocNode, deallocNode, done)
      && SameOwners(graph, aliases, Aliases(graph, preserve))
    }

    /** The values fit the tensors of the list, which have room for them. */
    predicate Writable(ids: seq<int>, values: seq<seq<byte>>)
      requires Sized()
    {
      Fits(graph, ids, values) && forall j :: 0 <= j < |ids| ==> WritableAt(ids[j])
    }

    predicate WritableAt(t: int)
      requires Sized()
    {
      graph.IsTensorOrOptional(t) && (OnArena(graph, t) ==> WellPlaced(t))
    }

    /** `t` owns bytes and has them while node `i` runs. */
    predicate LiveAt(t: int, i: int, done: int)
      requires Sized()
    {
      graph.IsTensor(t) && Home(t) == t &&
      (OnArena(graph, t) ==> 0 <= allocNode[t] <= i && allocNode[t] < done && (InRw(t) ==> i <= deallocNode[t]))
    }

    /** The tensors hold what the store says, and hold it while node `i` runs. */
    ghost predicate Agree(tensors: set<int>, store: Store, i: int, done: int)
      requires Sized() && |store| == |graph.tensors|
    {
      forall t :: t in tensors ==> LiveAt(t, i, done) && Contents(t) == store[t]
    }

    /** The owners of bytes that hold data when node `i` starts and are not yet released. */
    ghost function Held(i: int): set<int>
      requires Sized()
    {
      set t | 0 <= t < |graph.tensors| && Home(t) == t && HasData(graph, t, i)
        && (OnArena(graph, t) && InRw(t) ==> i <= deallocNode[t])
    }

    /** The view after writing the first `k` values. */
    function WriteList(ids: seq<int>, values: seq<seq<byte>>, k: nat): (v: View)
      requires Sized() && k <= |ids| && Writable(ids, values)
      ensures v.Sized() && v == this.(rw := v.rw, persistent := v.persistent, external := v.external)
      ensures |v.rw| == |rw| && |v.persistent| == |persistent|
    {
      if k == 0 then this
      else
        var before := WriteList(ids, values, k - 1);
        if ids[k - 1] == OPTIONAL then before else before.Write(ids[k - 1], values[k - 1])
    }
  }

  function Slice(block: seq<byte>, a: Alloc): seq<byte> {
    if a.offset + a.size <= |block| then block[a.offset..a.offset + a.size] else []
  }

  function Poked(block: seq<byte>, offset: nat, value: seq<byte>): (r: seq<byte>)
    requires offset + |value| <= |block|
    ensures |r| == |block|
  {
    block[..offset] + value + block[offset + |value|..]
  }

  lemma PokeOutside(block: seq<byte>, offset: nat, value: seq<byte>, a: Alloc)
    requires offset + |value| <= |block| && Apart(offset, |value|, a)
    ensures Slice(Poked(block, offset, value), a) == Slice(block, a)
  {
    if a.offset + a.size <= |block| {
      assert forall i :: a.offset <= i < a.offset + a.size ==> Poked(block, offset, value)[i] == block[i];
    }
  }

  lemma PokeInside(block: seq<byte>, value: seq<byte>, a: Alloc)
    requires a.offset + a.size <= |block| && a.size == |value|
    ensures Slice(Poked(block, a.offset, value), a) == value
  {}

  /** Writing a live tensor changes no other live tensor. */
  lemma WriteKeeps(v: View, t: int, value: seq<byte>, tensors: set<int>, store: Store, i: int, done: int)
    requires v.Laid(done) && v.LiveAt(t, i, done) && i < NOT_ASSIGNED && FitsTensor(v.graph, t, value)
    requires |store| == |v.graph.tensors| && v.Agree(tensors, store, i, done)
    ensures OnArena(v.graph, t) ==> v.WellPlaced(t)
    ensures v.Write(t, value).Laid(done)
    ensures v.Write(t, value).Agree(tensors + {t}, store[t := value], i, done)
  {
    assert OnArena(v.graph, t) ==> v.PlacedBy(t, done);
    WriteKeepsLaid(v, t, value, done);
    var w := v.Write(t, value);
    if OnArena(v.graph, t) {
      PokeInside(v.Block(t), value, v.allocs[t]);
      forall u | u in tensors && u != t
        ensures w.Contents(u) == v.Contents(u)
      {
        if OnArena(v.graph, u) && v.InRw(t) == v.InRw(u) {
          assert v.PlacedBy(u, done);
          LiveTogether(v, t, u, i, done);
          PokeOutside(v.Block(t), v.allocs[t].offset, value, v.allocs[u]);
        }
      }
    }
    hide View.Laid;
    hide Slice;
    hide Poked;
  }

  /** Two tensors live at one node hold disjoint bytes. */
  lemma LiveTogether(v: View, t: int, u: int, i: int, done: int)
    requires v.Laid(done) && v.PlacedBy(t, done) && v.PlacedBy(u, done) && t != u && v.InRw(t) == v.InRw(u)
      && i < NOT_ASSIGNED
    requires v.LiveAt(t, i, done) && v.LiveAt(u, i, done)
    ensures v.WellPlaced(t) && Apart(v.allocs[t].offset, v.allocs[t].size, v.allocs[u])
  {}

  lemma HomeOutside(v: View, t: int)
    requires !OnArena(v.graph, t)
    ensures v.Home(t) == t
  {}

  /** Writing changes no placement. */
  lemma WriteKeepsLaid(v: View, t: int, value: seq<byte>, done: int)
    requires v.Laid(done) && v.graph.IsTensor(t) && FitsTensor(v.graph, t, value)
      && (OnArena(v.graph, t) ==> v.PlacedBy(t, done))
    ensures (OnArena(v.graph, t) ==> v.WellPlaced(t)) && v.Write(t, value).Laid(done)
  {
    var w := v.Write(t, value);
    SizesStay(v, t, value);
    hide View.Write;
    hide Compatible;
    forall u | w.PlacedBy(u, done)
      ensures w.WellPlaced(u)
    {
      assert v.PlacedBy(u, done);
    }
  }

  lemma SizesStay(v: View, t: int, value: seq<byte>)
    requires v.Sized() && v.graph.IsTensor(t) && (OnArena(v.graph, t) ==> v.allocs[t].offset + |value| <= |v.Block(t)|)
    ensures var w := v.Write(t, value);
      && w == v.(rw := w.rw, persistent := w.persistent, external := w.external) && w.Sized()
      && |w.rw| == |v.rw| && |w.persistent| == |v.persistent|
  {
    hide Poked;
  }

  lemma NothingPresent(tensors: set<int>, ids: seq<int>)
    ensures tensors + Present(ids[..0]) == tensors
  {}

  lemma PresentGrows(tensors: set<int>, ids: seq<int>, k: nat)
    requires k < |ids|
    ensures tensors + Present(ids[..k + 1]) ==
      if ids[k] == OPTIONAL then tensors + Present(ids[..k]) else tensors + Present(ids[..k]) + {ids[k]}
  {
    PresentStep(ids, k);
  }

  /** One more value of a list is written. */
  lemma WriteNext(v: View, ids: seq<int>, values: seq<seq<byte>>, k: nat, tensors: set<int>, store: Store, i: int,
                  done: int)
    requires v.Sized() && k < |ids| && v.Writable(ids, values) && i < NOT_ASSIGNED && |store| == |v.graph.tensors|
    requires v.WriteList(ids, values, k).Laid(done) && v.WriteList(ids, values, k).Agree(tensors, store, i, done)
    requires ids[k] != OPTIONAL ==> v.LiveAt(ids[k], i, done)
    ensures var w := v.WriteList(ids, values, k + 1);
      w.Laid(done) && if ids[k] == OPTIONAL then w.Agree(tensors, store, i, done)
      else w.Agree(tensors + {ids[k]}, store[ids[k] := values[k]], i, done)
  {
    hide View.Laid;
    hide View.Agree;
    hide FitsTensor;
    hide Owner;
    hide OnArena;
    if ids[k] != OPTIONAL {
      assert v.WritableAt(ids[k]);
      WriteKeeps(v.WriteList(ids, values, k), ids[k], values[k], tensors, store, i, done);
    }
  }

  /** The first `k` values of a list are written: the view agrees with the store written the same way. */
  ghost predicate ListWritten(v: View, ids: seq<int>, values: seq<seq<byte>>, k: nat, tensors: set<int>, store: Store,
                              i: int, done: int)
    requires v.Sized() && v.Writable(ids, values) && k <= |ids| && |store| == |v.graph.tensors|
  {
    var w := v.WriteList(ids, values, k);
    w.Laid(done) && w.Agree(tensors + Present(ids[..k]), Scatter(v.graph, store, ids, values, k), i, done)
  }

  lemma ListBegins(v: View, ids: seq<int>, values: seq<seq<byte>>, tensors: set<int>, store: Store, i: int, done: int)
    requires v.Laid(done) && v.Writable(ids, values) && |store| == |v.graph.tensors| && v.Agree(tensors, store, i, done)
    ensures ListWritten(v, ids, values, 0, tensors, store, i, done)
  {
    NothingPresent(tensors, ids);
    hide View.Laid;
    hide View.Agree;
    hide Present;
  }

  lemma ListGoesOn(v: View, ids: seq<int>, values: seq<seq<byte>>, k: nat, tensors: set<int>, store: Store, i: int,
                   done: int)
    requires v.Sized() && v.Writable(ids, values) && k < |ids| && |store| == |v.graph.tensors| && i < NOT_ASSIGNED
    requires ListWritten(v, ids, values, k, tensors, store, i, done)
      && (ids[k] != OPTIONAL ==> v.LiveAt(ids[k], i, done))
    ensures ListWritten(v, ids, values, k + 1, tensors, store, i, done)
  {
    PresentGrows(tensors, ids, k);
    hide View.Laid;
    hide View.Agree;
    hide View.LiveAt;
    hide View.WellPlaced;
    hide FitsTensor;
    hide Present;
    var held, scattered := tensors + Present(ids[..k]), Scatter(v.graph, store, ids, values, k);
    WriteNext(v, ids, values, k, held, scattered, i, done);
  }

  lemma {:induction false} WriteListKeeps(v: View, ids: seq<int>, values: seq<seq<byte>>, k: nat, tensors: set<int>,
                                          store: Store, i: int, done: int)
    requires v.Laid(done) && i < NOT_ASSIGNED && |store| == |v.graph.tensors| && v.Agree(tensors, store, i, done)
    requires k <= |ids| && v.Writable(ids, values)
    requires forall j :: 0 <= j < |ids| && ids[j] != OPTIONAL ==> v.LiveAt(ids[j], i, done)
    ensures ListWritten(v, ids, values, k, tensors, store, i, done)
  {
    assert v.Sized();
    hide View.Laid;
    hide View.Agree;
    hide View.LiveAt;
    hide View.Writable;
    hide ListWritten;
    if k == 0 {
      ListBegins(v, ids, values, tensors, store, i, done);
    } else {
      WriteListKeeps(v, ids, values, k - 1, tensors, store, i, done);
      ListGoesOn(v, ids, values, k - 1, tensors, store, i, done);
    }
  }

  /** What a node reads is in bytes that hold data and are not yet released. */
  lemma ReadsAreHeld(v: View, i: int, done: int, t: int)
    requires v.Sound(done) && 0 <= i < done && i < |v.graph.nodes| && v.graph.Reads(i, t)
    ensures v.Home(t) in v.Held(i)
  {
    var g, m, o := v.graph, Aliases(v.graph, v.preserve), v.Home(t);
    assert o == Owner(g, m, t);
    var j :| 0 <= j < |g.nodes[i].inputs| && g.nodes[i].inputs[j] == t;
    OwnerHasData(g, v.preserve, i, t);
    OwnerOutlives(g, v.preserve, i, t);
    OwnerIsRead(g, v.preserve, i, t, done);
    OwnersOwn(g, v.preserve, t);
  }

  /** What a node writes goes to bytes that are reserved while the node runs. */
  lemma WritesAreLive(v: View, i: int, done: int, t: int)
    requires v.Sound(done) && 0 <= i < done && i < |v.graph.nodes| && v.graph.Writes(i, t)
    ensures v.LiveAt(v.Home(t), i, done) && (OnArena(v.graph, v.Home(t)) ==> v.WellPlaced(v.Home(t)))
  {
    var g, m, o := v.graph, Aliases(v.graph, v.preserve), v.Home(t);
    assert o == Owner(g, m, t);
    OwnersOwn(g, v.preserve, t);
    OwnerIsWritten(g, v.preserve, i, t, done);
    assert OnArena(g, o) ==> v.PlacedBy(o, done);
  }

  /** A temporary has its bytes while its node runs. */
  lemma TemporariesAreLive(v: View, i: int, done: int, t: int)
    requires v.Sound(done) && 0 <= i < done && i < |v.graph.nodes| && v.graph.Scratches(i, t)
    ensures v.LiveAt(t, i, done) && (OnArena(v.graph, t) ==> v.WellPlaced(t))
  {
    var g := v.graph;
    var j :| 0 <= j < |g.nodes[i].temporaries| && g.nodes[i].temporaries[j] == t;
    if t in Aliases(g, v.preserve) {
      AliasIsWritten(g, v.preserve, t);
    }
    assert Owner(g, Aliases(g, v.preserve), t) == t;
    assert OnArena(g, t) ==> v.PlacedBy(t, done);
  }

  lemma HeldIsLive(v: View, i: int, done: int, t: int)
    requires v.Sound(done) && 0 <= i <= |v.graph.nodes| && i <= done && (i < done || i > 0) && t in v.Held(i)
    ensures v.LiveAt(t, i, done) && (OnArena(v.graph, t) ==> !ScratchedIn(v.graph, i, done, t))
  {
    var g := v.graph;
    if OnArena(g, t) {
      if !g.Given(t) {
        var k :| 0 <= k < i && k < |g.nodes| && g.Writes(k, t);
        AllocNodeOfWritten(g, t, k);
        NotScratched(g, k, t, done);
      }
      assert !ScratchedIn(g, 0, done, t);
    }
  }

  lemma HeldNext(v: View, i: int, t: int)
    requires v.Sized() && v.graph.WellIndexed() && 0 <= i < |v.graph.nodes| && t in v.Held(i + 1)
    ensures t in v.Held(i) || t in Present(v.Homes(v.graph.nodes[i].outputs))
  {
    if OnArena(v.graph, t) && !v.graph.Given(t) {
      var k :| 0 <= k < i + 1 && k < |v.graph.nodes| && v.graph.Writes(k, t);
      if k == i {
        var j :| 0 <= j < |v.graph.nodes[i].outputs| && v.graph.nodes[i].outputs[j] == t;
        assert v.Homes(v.graph.nodes[i].outputs)[j] == t;
      }
    }
  }

  /** The tensors node `i` writes have room in the view. */
  predicate RoomForNode(v: View, i: nat)
    requires v.Sized() && v.graph.WellIndexed() && i < |v.graph.nodes|
  {
    var outputs, temporaries := v.Homes(v.graph.nodes[i].outputs), v.graph.nodes[i].temporaries;
    && (forall j :: 0 <= j < |outputs| ==> v.WritableAt(outputs[j]))
    && (forall j :: 0 <= j < |temporaries| ==> v.WritableAt(temporaries[j]))
  }

  /** The results fit the tensors node `i` writes. */
  predicate ResultFits(g: Graph, i: nat, result: KernelResult)
    requires i < |g.nodes|
  {
    Fits(g, g.nodes[i].outputs, result.outputs) && Fits(g, g.nodes[i].temporaries, result.temporaries)
  }

  /** The view after node `i` has written what it computed. */
  function WriteNode(v: View, i: nat, result: KernelResult): View
    requires v.graph.WellIndexed() && v.Sized() && i < |v.graph.nodes| && RoomForNode(v, i)
      && ResultFits(v.graph, i, result)
  {
    var node := v.graph.nodes[i];
    var scratched := v.WriteList(node.temporaries, result.temporaries, |node.temporaries|);
    var outputs := v.Homes(node.outputs);
    HomesFit(v, node.outputs, result.outputs);
    assert forall j :: 0 <= j < |outputs| ==> v.WritableAt(outputs[j]) && scratched.WritableAt(outputs[j]);
    scratched.WriteList(outputs, result.outputs, |outputs|)
  }

  lemma TemporariesAreWritable(v: View, i: nat, result: KernelResult)
    requires v.graph.WellIndexed() && v.Sized() && i < |v.graph.nodes| && RoomForNode(v, i)
      && ResultFits(v.graph, i, result)
    ensures v.Writable(v.graph.nodes[i].temporaries, result.temporaries)
  {}

  lemma OutputsAreWritable(v: View, u: View, i: nat, result: KernelResult)
    requires v.graph.WellIndexed() && v.Sized() && i < |v.graph.nodes| && RoomForNode(v, i)
      && ResultFits(v.graph, i, result)
    requires u == v.(rw := u.rw, persistent := u.persistent, external := u.external) && u.Sized()
      && |u.rw| == |v.rw| && |u.persistent| == |v.persistent|
    ensures u.Writable(u.Homes(v.graph.nodes[i].outputs), result.outputs)
  {
    var ids := v.Homes(v.graph.nodes[i].outputs);
    HomesFit(v, v.graph.nodes[i].outputs, result.outputs);
    assert u.Homes(v.graph.nodes[i].outputs) == ids;
    hide Owner;
    hide FitsTensor;
    forall j | 0 <= j < |ids|
      ensures u.WritableAt(ids[j])
    {
      assert v.WritableAt(ids[j]);
    }
  }

  /** Node `i` run on shared storage. */
  function RunNodeShared(v: View, kernel: Kernel, i: nat): View
    requires v.graph.WellIndexed() && WellSized(v.graph, kernel) && v.Sized() && i < |v.graph.nodes|
      && RoomForNode(v, i)
  {
    WriteNode(v, i, kernel(i, ReadList(v, v.Homes(v.graph.nodes[i].inputs))))
  }

  /** What fits a tensor fits the bytes it shares. */
  lemma HomesFit(v: View, ids: seq<int>, values: seq<seq<byte>>)
    requires Fits(v.graph, ids, values) && forall j :: 0 <= j < |ids| ==> v.graph.IsTensorOrOptional(ids[j])
    ensures Fits(v.graph, v.Homes(ids), values)
  {}

  function ReadList(v: View, ids: seq<int>): seq<seq<byte>>
    requires v.Sized() && forall j :: 0 <= j < |ids| ==> v.graph.IsTensorOrOptional(ids[j])
  {
    seq(|ids|, j requires 0 <= j < |ids| && v.graph.IsTensorOrOptional(ids[j]) =>
      if ids[j] == OPTIONAL then [] else v.Contents(ids[j]))
  }

  lemma WritesHaveRoom(v: View, i: nat, done: int)
    requires v.Sound(done) && i < done && i < |v.graph.nodes|
    ensures RoomForNode(v, i)
    ensures var outputs := v.Homes(v.graph.nodes[i].outputs);
      forall j :: 0 <= j < |outputs| && outputs[j] != OPTIONAL ==> v.LiveAt(outputs[j], i, done)
    ensures forall j :: 0 <= j < |v.graph.nodes[i].temporaries| ==> v.LiveAt(v.graph.nodes[i].temporaries[j], i, done)
  {
    var node := v.graph.nodes[i];
    var outputs := v.Homes(node.outputs);
    forall j | 0 <= j < |outputs| && outputs[j] != OPTIONAL
      ensures v.LiveAt(outputs[j], i, done) && v.WritableAt(outputs[j])
    {
      assert node.outputs[j] != OPTIONAL;
      assert v.graph.Writes(i, node.outputs[j]);
      WritesAreLive(v, i, done, node.outputs[j]);
    }
    forall j | 0 <= j < |node.temporaries|
      ensures v.LiveAt(node.temporaries[j], i, done) && v.WritableAt(node.temporaries[j])
    {
      assert v.graph.Scratches(i, node.temporaries[j]);
      TemporariesAreLive(v, i, done, node.temporaries[j]);
    }
  }

  /** A node run on shared bytes reads what it reads where only buffers are shared. */
  lemma ReadsAgree(v: View, store: Store, i: nat, done: int)
    requires v.Sound(done) && i < done && i < |v.graph.nodes|
    requires |store| == |v.graph.tensors| && v.Agree(v.Held(i), store, i, done)
    ensures var ids := v.Homes(v.graph.nodes[i].inputs); ReadList(v, ids) == Gather(v.graph, store, ids)
  {
    var inputs := v.graph.nodes[i].inputs;
    var ids := v.Homes(inputs);
    forall j | 0 <= j < |ids| && ids[j] != OPTIONAL
      ensures v.Contents(ids[j]) == store[ids[j]]
    {
      assert v.graph.Reads(i, inputs[j]);
      ReadsAreHeld(v, i, done, inputs[j]);
    }
  }

  /** What holds after the writes of node `i` holds when node `i + 1` starts. */
  lemma NextHeld(v: View, tensors: set<int>, store: Store, i: nat, done: int)
    requires v.Sound(done) && i < done && i < |v.graph.nodes| && |store| == |v.graph.tensors|
    requires v.Agree(tensors, store, i, done)
    requires v.Held(i) + Present(v.Homes(v.graph.nodes[i].outputs)) <= tensors
    ensures v.Agree(v.Held(i + 1), store, i + 1, done)
  {
    var next, held := i + 1, v.Held(i + 1);
    forall t | t in held
      ensures v.LiveAt(t, next, done) && v.Contents(t) == store[t]
    {
      HeldNext(v, i, t);
      HeldIsLive(v, next, done, t);
    }
    assert v.Agree(held, store, next, done);
  }

  lemma TemporariesAreWritten(v: View, result: KernelResult, store: Store, i: nat, done: int)
    requires v.Sound(done) && i < done && i < |v.graph.nodes| && ResultFits(v.graph, i, result)
    requires |store| == |v.graph.tensors| && v.Agree(v.Held(i), store, i, done)
    ensures RoomForNode(v, i)
    ensures var ids := v.graph.nodes[i].temporaries;
      ListWritten(v, ids, result.temporaries, |ids|, v.Held(i), store, i, done)
  {
    WritesHaveRoom(v, i, done);
    hide Runnable;
    hide LifetimesKnown;
    hide View.Agree;
    hide ListWritten;
    var ids := v.graph.nodes[i].temporaries;
    WriteListKeeps(v, ids, result.temporaries, |ids|, v.Held(i), store, i, done);
  }

  lemma OutputsAreWritten(v: View, u: View, result: KernelResult, tensors: set<int>, store: Store, i: nat, done: int)
    requires v.Sound(done) && i < done && i < |v.graph.nodes| && ResultFits(v.graph, i, result)
    requires u.Laid(done) && u == v.(rw := u.rw, persistent := u.persistent, external := u.external)
    requires |u.rw| == |v.rw| && |u.persistent| == |v.persistent|
    requires |store| == |v.graph.tensors| && u.Agree(tensors, store, i, done)
    ensures var ids := v.Homes(v.graph.nodes[i].outputs);
      u.Writable(ids, result.outputs) && ListWritten(u, ids, result.outputs, |ids|, tensors, store, i, done)
  {
    WritesHaveRoom(v, i, done);
    var ids := v.Homes(v.graph.nodes[i].outputs);
    HomesFit(v, v.graph.nodes[i].outputs, result.outputs);
    hide Runnable;
    hide LifetimesKnown;
    hide View.Laid;
    hide View.Agree;
    hide ListWritten;
    hide Owner;
    forall j | 0 <= j < |ids|
      ensures u.WritableAt(ids[j]) && (ids[j] != OPTIONAL ==> u.LiveAt(ids[j], i, done))
    {
      assert v.WritableAt(ids[j]);
    }
    WriteListKeeps(u, ids, result.outputs, |ids|, tensors, store, i, done);
  }

  lemma SameHeld(v: View, w: View, i: int)
    requires v.Sized() && w.Sized() && w == v.(rw := w.rw, persistent := w.persistent, external := w.external)
    ensures w.Held(i) == v.Held(i)
  {}

  lemma StillSound(v: View, w: View, done: int)
    requires v.Sound(done) && w.Laid(done) && w == v.(rw := w.rw, persistent := w.persistent, external := w.external)
    ensures w.Sound(done)
  {
    hide Runnable;
    hide LifetimesKnown;
    hide View.Laid;
  }

  /** What the node writes on shared bytes, it writes where only buffers are shared. */
  lemma WriteNodeRefines(v: View, result: KernelResult, store: Store, i: nat, done: int)
    requires v.Sound(done) && i < done && i < |v.graph.nodes| && ResultFits(v.graph, i, result)
    requires |store| == |v.graph.tensors| && v.Agree(v.Held(i), store, i, done)
    ensures RoomForNode(v, i)
    ensures var node, w := v.graph.nodes[i], WriteNode(v, i, result);
      var scratched := Scatter(v.graph, store, node.temporaries, result.temporaries, |node.temporaries|);
      w.Sound(done) && w.Agree(w.Held(i + 1),
        Scatter(v.graph, scratched, v.Homes(node.outputs), result.outputs, |node.outputs|), i + 1, done)
  {
    TemporariesAreWritten(v, result, store, i, done);
    var node, outputs := v.graph.nodes[i], v.Homes(v.graph.nodes[i].outputs);
    var u := v.WriteList(node.temporaries, result.temporaries, |node.temporaries|);
    var scratched := Scatter(v.graph, store, node.temporaries, result.temporaries, |node.temporaries|);
    var held := v.Held(i) + Present(node.temporaries[..|node.temporaries|]);
    OutputsAreWritten(v, u, result, held, scratched, i, done);
    var w := u.WriteList(outputs, result.outputs, |outputs|);
    assert outputs[..|outputs|] == outputs;
    SameHeld(v, w, i);
    StillSound(v, w, done);
    hide Runnable;
    hide LifetimesKnown;
    hide View.Laid;
    hide View.Agree;
    hide View.Held;
    hide Owner;
    hide View.Sound;
    NextHeld(w, held + Present(outputs), Scatter(v.graph, scratched, outputs, result.outputs, |outputs|), i, done);
  }

  /** A node run on shared bytes sees and produces what it does where only buffers are shared. */
  lemma RunNodeRefines(v: View, kernel: Kernel, store: Store, i: nat, done: int)
    requires v.Sound(done) && i < done && i < |v.graph.nodes| && WellSized(v.graph, kernel)
    requires |store| == |v.graph.tensors| && v.Agree(v.Held(i), store, i, done)
    ensures RoomForNode(v, i)
    ensures var w := RunNodeShared(v, kernel, i);
      w.Sound(done) && w.Agree(w.Held(i + 1), RunNodeSharing(v.graph, v.aliases, kernel, store, i), i + 1, done)
  {
    ReadsAgree(v, store, i, done);
    hide Runnable;
    hide LifetimesKnown;
    hide View.Laid;
    hide View.Agree;
    hide View.Held;
    hide WriteNode;
    hide Fits;
    var node := v.graph.nodes[i];
    WriteNodeRefines(v, kernel(i, Gather(v.graph, store, v.Homes(node.inputs))), store, i, done);
  }

  lemma NotScratched(g: Graph, i: int, t: int, done: int)
    requires g.PrivateTemporaries() && 0 <= i < |g.nodes| && (g.Reads(i, t) || g.Writes(i, t))
    ensures forall first :: 0 <= first ==> !ScratchedIn(g, first, done, t)
  {
    forall k | 0 <= k < done && k < |g.nodes|
      ensures !g.Scratches(k, t)
    {}
  }

  lemma SameOwnersRunAlike(g: Graph, a: map<int, int>, b: map<int, int>, kernel: Kernel, store: Store, i: nat)
    requires g.WellIndexed() && WellSized(g, kernel) && |store| == |g.tensors| && i < |g.nodes| && SameOwners(g, a, b)
    ensures RunNodeSharing(g, a, kernel, store, i) == RunNodeSharing(g, b, kernel, store, i)
  {
    assert Owners(g, a, g.nodes[i].inputs) == Owners(g, b, g.nodes[i].inputs);
    assert Owners(g, a, g.nodes[i].outputs) == Owners(g, b, g.nodes[i].outputs);
  }

  /** An owner owns its bytes. */
  lemma OwnersOwn(g: Graph, preserve: bool, t: int)
    requires Runnable(g)
    ensures var m := Aliases(g, preserve); Owner(g, m, Owner(g, m, t)) == Owner(g, m, t)
  {
    InPlaceMapSound(g, ReferenceCounts(g), preserve, |g.nodes|);
  }

  /** The owner of bytes is read by some node, and is no alias. */
  lemma KeptOwnerIsRead(g: Graph, preserve: bool, t: int) returns (p: nat)
    requires Runnable(g) && KeepsAlias(g, Aliases(g, preserve), t)
    ensures p < |g.nodes| && g.Reads(p, Aliases(g, preserve)[t])
  {
    OwnersAreRead(g, ReferenceCounts(g), preserve, |g.nodes|, t);
    p :| p < |g.nodes| && g.Reads(p, Aliases(g, preserve)[t]);
  }

  lemma OwnerIsRead(g: Graph, preserve: bool, i: nat, t: int, done: int)
    requires Runnable(g) && i < |g.nodes| && g.Reads(i, t)
    ensures !ScratchedIn(g, 0, done, Owner(g, Aliases(g, preserve), t))
  {
    if KeepsAlias(g, Aliases(g, preserve), t) {
      var p := KeptOwnerIsRead(g, preserve, t);
      NotScratched(g, p, Aliases(g, preserve)[t], done);
    } else {
      NotScratched(g, i, t, done);
    }
  }

  /** Shared bytes hold data before any of the tensors sharing them is read. */
  lemma OwnerHasData(g: Graph, preserve: bool, i: nat, t: int)
    requires Runnable(g) && i < |g.nodes| && g.Reads(i, t)
    ensures HasData(g, Owner(g, Aliases(g, preserve), t), i)
  {
    var m := Aliases(g, preserve);
    var o := Owner(g, m, t);
    if OnArena(g, o) && !g.Given(o) {
      if KeepsAlias(g, m, t) {
        var p := KeptOwnerIsRead(g, preserve, t);
        AliasIsWritten(g, preserve, t);
        var k: nat :| k < |g.nodes| && g.Writes(k, t) && WrittenBefore(g, o, k);
        var q :| 0 <= q < |g.nodes| && g.Writes(q, o);
      } else {
        var k :| 0 <= k < |g.nodes| && g.Writes(k, t);
      }
    }
  }

  /** Shared bytes are not released before any of the tensors sharing them is read for the last time. */
  lemma OwnerOutlives(g: Graph, preserve: bool, i: nat, t: int)
    requires Runnable(g) && i < |g.nodes| && g.Reads(i, t)
    ensures var m := Aliases(g, preserve); i <= DeallocNode(g, m, preserve, Owner(g, m, t))
  {
    var m := Aliases(g, preserve);
    if t in m && !KeepsAlias(g, m, t) {
      AliasIsNotReleased(g, preserve, t);
    } else {
      DeallocAfterLastConsumer(g, m, preserve, i, t);
    }
  }

  /** An alias that gets bytes of its own keeps them, because its uses are counted for another tensor. */
  lemma AliasIsNotReleased(g: Graph, preserve: bool, t: int)
    requires Runnable(g) && t in Aliases(g, preserve)
    ensures DeallocNode(g, Aliases(g, preserve), preserve, t) == NOT_ASSIGNED
  {
    var m := Aliases(g, preserve);
    InPlaceMapSound(g, ReferenceCounts(g), preserve, |g.nodes|);
    var last := LastUseBefore(g, m, |g.nodes|, 0, t);
    if last >= 0 {
      LastUseIsUse(g, m, |g.nodes|, 0, t);
    }
  }

  /** Shared bytes are reserved before any of the tensors sharing them is written. */
  lemma OwnerIsFirst(g: Graph, preserve: bool, i: nat, t: int)
    requires Runnable(g) && i < |g.nodes| && g.Writes(i, t)
    ensures 0 <= AllocNode(g, Owner(g, Aliases(g, preserve), t)) <= i
  {
    var m := Aliases(g, preserve);
    if KeepsAlias(g, m, t) {
      var p := KeptOwnerIsRead(g, preserve, t);
      AliasIsWritten(g, preserve, t);
      if !g.Given(m[t]) {
        var q :| 0 <= q < |g.nodes| && g.Writes(q, m[t]);
        AllocNodeOfWritten(g, m[t], q);
      }
    } else {
      AllocNodeOfWritten(g, t, i);
    }
  }

  lemma OwnerIsWritten(g: Graph, preserve: bool, i: nat, t: int, done: int)
    requires Runnable(g) && i < |g.nodes| && g.Writes(i, t)
    ensures var m := Aliases(g, preserve); var o := Owner(g, m, t);
      && 0 <= AllocNode(g, o) <= i <= DeallocNode(g, m, preserve, o) && !ScratchedIn(g, 0, done, o) && g.IsTensor(o)
  {
    var m := Aliases(g, preserve);
    OwnerIsFirst(g, preserve, i, t);
    var j :| 0 <= j < |g.nodes[i].outputs| && g.nodes[i].outputs[j] == t;
    if KeepsAlias(g, m, t) {
      InPlaceMapSound(g, ReferenceCounts(g), preserve, |g.nodes|);
      var p :| p < |g.nodes| && AliasedAt(g, m, t, p);
      var x :| g.Reads(p, x) && x !in g.inputs && x != t && Shared(m, x) == m[t];
      DeallocAfterLastConsumer(g, m, preserve, i, x);
      var r := KeptOwnerIsRead(g, preserve, t);
      NotScratched(g, r, m[t], done);
    } else {
      NotScratched(g, i, t, done);
      if t in m {
        AliasIsNotReleased(g, preserve, t);
      } else {
        DeallocNotBeforeAlloc(g, m, preserve, t);
      }
    }
  }

  /** Lifetimes are those of the plan, except for the temporaries of planned nodes. */
  ghost predicate LifetimesKnown(g: Graph, preserve: bool, allocNode: seq<int>, deallocNode: seq<int>, done: int)
    requires g.WellIndexed() && InPlaceHasOutput(g)
  {
    && |allocNode| == |deallocNode| == |g.tensors|
    && (forall t :: g.IsTensor(t) && !ScratchedIn(g, 0, done, t) ==>
          allocNode[t] == AllocNode(g, t) && deallocNode[t] == DeallocNode(g, Aliases(g, preserve), preserve, t))
    && (forall k, t :: 0 <= k < done && k < |g.nodes| && g.Scratches(k, t) && g.IsTensor(t) ==>
          allocNode[t] == k <= deallocNode[t])
  }

  lemma LifetimesStayKnown(g: Graph, preserve: bool, alloc0: seq<int>, dealloc0: seq<int>, alloc1: seq<int>,
                           dealloc1: seq<int>, first: int, last: int)
    requires Runnable(g) && LifetimesKnown(g, preserve, alloc0, dealloc0, first) && 0 <= first <= last
    requires |alloc1| == |dealloc1| == |g.tensors|
      && LifetimesExtended(g, preserve, alloc0, dealloc0, alloc1, dealloc1, first, last)
    ensures LifetimesKnown(g, preserve, alloc1, dealloc1, last + 1)
  {
    forall t | g.IsTensor(t) && !ScratchedIn(g, 0, last + 1, t)
      ensures !ScratchedIn(g, 0, first, t) && !ScratchedIn(g, first, last + 1, t)
    {}
    forall k, t | 0 <= k < last + 1 && k < |g.nodes| && g.Scratches(k, t) && g.IsTensor(t)
      ensures alloc1[t] == k <= dealloc1[t]
    {
      if k < first {
        assert !ScratchedIn(g, first, last + 1, t);
      } else {
        assert !ScratchedIn(g, 0, first, t);
      }
    }
  }

  /** The plan of `w` extends that of `v` by the nodes first..last; its blocks extend those of `v`. */
  ghost predicate Extended(v: View, w: View, first: int, last: int) {
    && v.Sized() && w.Sized() && v.graph.WellIndexed() && 0 <= first
    && w.graph == v.graph && w.preserve == v.preserve && w.external == v.external
    && v.rw <= w.rw && v.persistent <= w.persistent
    && (forall t :: v.PlacedBy(t, first) ==> w.allocs[t] == v.allocs[t]) && SameOwners(v.graph, w.aliases, v.aliases)
    && LifetimesExtended(v.graph, v.preserve, v.allocNode, v.deallocNode, w.allocNode, w.deallocNode, first, last)
  }

  lemma GrownIsSound(v: View, w: View, first: int, last: int)
    requires v.Sound(first) && w.Laid(last + 1) && Extended(v, w, first, last) && 0 < first <= last
    ensures w.Sound(last + 1)
  {
    hide View.Laid;
    hide LifetimesKnown;
    hide LifetimesExtended;
    LifetimesStayKnown(v.graph, v.preserve, v.allocNode, v.deallocNode, w.allocNode, w.deallocNode, first, last);
    hide Runnable;
  }

  /** What was placed before the range lies where it was. */
  lemma PlacedStays(v: View, w: View, first: int, last: int, t: int)
    requires v.Laid(first) && w.Sized() && Extended(v, w, first, last) && v.PlacedBy(t, first)
    ensures v.Contents(t) == w.Contents(t)
  {
    hide LifetimesExtended;
  }

  /** Planning more nodes and growing the blocks keeps every held tensor where it was. */
  lemma Grown(v: View, w: View, store: Store, first: int, last: int)
    requires v.Sound(first) && w.Laid(last + 1) && Extended(v, w, first, last)
    requires 0 < first <= last && first <= |v.graph.nodes|
    requires |store| == |v.graph.tensors| && v.Agree(v.Held(first), store, first, first)
    ensures w.Sound(last + 1) && w.Agree(w.Held(first), store, first, last + 1)
  {
    hide Runnable;
    hide LifetimesKnown;
    hide View.Laid;
    GrownIsSound(v, w, first, last);
    forall t | t in w.Held(first)
      ensures w.LiveAt(t, first, last + 1) && w.Contents(t) == store[t]
    {
      HeldIsLive(w, first, last + 1, t);
      HeldBefore(v, w, first, last, t);
      assert v.LiveAt(t, first, first) && v.Contents(t) == store[t];
      if OnArena(v.graph, t) {
        PlacedStays(v, w, first, last, t);
      }
    }
  }

  lemma HeldBefore(v: View, w: View, first: int, last: int, t: int)
    requires v.Sized() && w.Sound(last + 1) && Extended(v, w, first, last) && 0 < first <= last && t in w.Held(first)
      && first <= |w.graph.nodes|
    ensures t in v.Held(first)
  {
    HeldIsLive(w, first, last + 1, t);
    hide Runnable;
    hide LifetimesKnown;
    hide View.Laid;
    if OnArena(w.graph, t) {
      NotScratchedFrom(w.graph, first, last + 1, t);
    }
  }

  lemma NotScratchedFrom(g: Graph, first: int, end: int, t: int)
    requires !ScratchedIn(g, first, end, t) && 0 <= first
    ensures forall i :: first <= i < end && i < |g.nodes| ==> !g.Scratches(i, t)
  {}

  method Overwrite(block: array<byte>, offset: nat, value: seq<byte>)
    requires offset + |value| <= block.Length
    modifies block
    ensures block[..] == Poked(old(block[..]), offset, value)
  {
    forall k | 0 <= k < |value| {
      block[offset + k] := value[k];
    }
  }

  /** The last nodes of consecutive ranges that cover nodes 0 to n - 1. */
  predicate Consecutive(ends: seq<int>, n: int) {
    |ends| > 0 && ends[0] >= 0 && ends[|ends| - 1] == n - 1 && forall i, j :: 0 <= i < j < |ends| ==> ends[i] < ends[j]
  }

  lemma ConsecutiveBounds(ends: seq<int>, n: int)
    requires Consecutive(ends, n)
    ensures |ends| > 0 && 0 <= ends[0] < n && ends[|ends| - 1] == n - 1
  {}

  lemma ConsecutiveStep(ends: seq<int>, n: int, k: int)
    requires Consecutive(ends, n) && 0 < k < |ends|
    ensures 0 <= ends[k - 1] < ends[k] < n
  {}

  /** Tensors no node writes own their bytes. */
  lemma GivenOwnsItself(g: Graph, preserve: bool, t: int)
    requires Runnable(g) && forall i: nat :: i < |g.nodes| ==> !g.Writes(i, t)
    ensures Owner(g, Aliases(g, preserve), t) == t
  {
    if t in Aliases(g, preserve) {
      AliasIsWritten(g, preserve, t);
    }
  }

  lemma TemporariesAreHome(v: View, i: nat, done: int)
    requires v.Sound(done) && i < |v.graph.nodes|
    ensures v.Homes(v.graph.nodes[i].temporaries) == v.graph.nodes[i].temporaries
  {
    var ids := v.graph.nodes[i].temporaries;
    forall j | 0 <= j < |ids|
      ensures v.Home(ids[j]) == ids[j]
    {
      assert v.graph.Scratches(i, ids[j]);
      GivenOwnsItself(v.graph, v.preserve, ids[j]);
    }
  }

  /** Every buffer that is shared is queued no later than its aliases. */
  lemma OwnersAreFirst(g: Graph, preserve: bool, aliases: map<int, int>, allocNode: seq<int>, deallocNode: seq<int>,
                       done: int)
    requires Runnable(g) && LifetimesKnown(g, preserve, allocNode, deallocNode, done)
    requires SameOwners(g, aliases, Aliases(g, preserve))
    ensures forall t :: KeepsAlias(g, aliases, t) ==> 0 <= allocNode[aliases[t]] <= allocNode[t]
  {
    forall t | KeepsAlias(g, aliases, t)
      ensures 0 <= allocNode[aliases[t]] <= allocNode[t]
    {
      assert KeepsAlias(g, Aliases(g, preserve), t) && Owner(g, aliases, t) == aliases[t];
      AliasIsWritten(g, preserve, t);
      var i: nat :| i < |g.nodes| && g.Writes(i, t);
      OwnerIsWritten(g, preserve, i, t, done);
      NotScratched(g, i, t, done);
      AllocNodeOfWritten(g, t, i);
    }
  }

  lemma GivenIsLive(v: View, done: int)
    requires v.Sound(done) && done > 0
    ensures forall t :: v.graph.Given(t) && t != OPTIONAL ==> v.LiveAt(t, 0, done) && v.WritableAt(t)
  {
    var g := v.graph;
    forall t | g.Given(t) && t != OPTIONAL
      ensures v.LiveAt(t, 0, done) && v.WritableAt(t)
    {
      assert !ScratchedIn(g, 0, done, t);
      GivenOwnsItself(g, v.preserve, t);
      PinnedNeverDeallocated(g, Aliases(g, v.preserve), v.preserve, t);
      assert OnArena(g, t) ==> v.PlacedBy(t, done);
    }
  }

  /** Writing the given tensors makes everything held at node 0 agree with the initial store. */
  lemma LoadingAgrees(v: View, initial: Store, done: int)
    requires v.Sound(done) && done > 0 && AllFit(v.graph, initial)
    requires forall t :: v.graph.IsTensor(t) && !OnArena(v.graph, t) ==> v.external[t] == initial[t]
    ensures var ids := v.graph.inputs + v.graph.variables;
      && (forall j :: 0 <= j < |ids| ==> v.graph.IsTensorOrOptional(ids[j])) && v.Homes(ids) == ids
      && Fits(v.graph, ids, Gather(v.graph, initial, ids)) && v.Writable(ids, Gather(v.graph, initial, ids))
      && (forall j :: 0 <= j < |ids| && ids[j] != OPTIONAL && OnArena(v.graph, ids[j]) ==> v.PlacedBy(ids[j], done))
      && var w := v.WriteList(ids, Gather(v.graph, initial, ids), |ids|);
      w.Sound(done) && w.Agree(w.Held(0), initial, 0, done)
  {
    var g := v.graph;
    var ids := g.inputs + g.variables;
    var values := Gather(g, initial, ids);
    var outside := set t | 0 <= t < |g.tensors| && !OnArena(g, t);
    GivenIsWritable(v, initial, done);
    hide Runnable;
    hide LifetimesKnown;
    hide View.Laid;
    hide View.Writable;
    hide FitsTensor;
    OutsideAgrees(v, outside, initial, done);
    WriteListKeeps(v, ids, values, |ids|, outside, initial, 0, done);
    ScatterGather(g, initial, ids, |ids|);
    assert ids[..|ids|] == ids;
    HeldAtStart(v.WriteList(ids, values, |ids|), outside, ids);
    hide OnArena;
    hide View.LiveAt;
    AgreeOnFewer(v.WriteList(ids, values, |ids|), outside + Present(ids), initial, 0, done);
  }

  lemma GivenIsWritable(v: View, initial: Store, done: int)
    requires v.Sound(done) && done > 0 && AllFit(v.graph, initial)
    ensures var ids := v.graph.inputs + v.graph.variables;
      && (forall j :: 0 <= j < |ids| ==> v.graph.IsTensorOrOptional(ids[j])) && v.Homes(ids) == ids
      && Fits(v.graph, ids, Gather(v.graph, initial, ids)) && v.Writable(ids, Gather(v.graph, initial, ids))
      && (forall j :: 0 <= j < |ids| && ids[j] != OPTIONAL ==> v.LiveAt(ids[j], 0, done))
      && (forall j :: 0 <= j < |ids| && ids[j] != OPTIONAL && OnArena(v.graph, ids[j]) ==> v.PlacedBy(ids[j], done))
  {
    RunnableIsIndexed(v.graph);
    GivenIsLive(v, done);
    hide Runnable;
    hide LifetimesKnown;
    hide View.Laid;
    var ids := v.graph.inputs + v.graph.variables;
    assert forall j :: 0 <= j < |ids| ==> v.graph.Given(ids[j]);
  }

  lemma OutsideAgrees(v: View, outside: set<int>, initial: Store, done: int)
    requires v.Sized() && |initial| == |v.graph.tensors|
    requires outside == set t | 0 <= t < |v.graph.tensors| && !OnArena(v.graph, t)
    requires forall t :: v.graph.IsTensor(t) && !OnArena(v.graph, t) ==> v.external[t] == initial[t]
    ensures v.Agree(outside, initial, 0, done)
  {}

  lemma HeldAtStart(v: View, outside: set<int>, ids: seq<int>)
    requires v.Sized() && ids == v.graph.inputs + v.graph.variables
    requires outside == set t | 0 <= t < |v.graph.tensors| && !OnArena(v.graph, t)
    ensures v.Held(0) <= outside + Present(ids)
  {}

  lemma AgreeOnFewer(v: View, tensors: set<int>, store: Store, i: int, done: int)
    requires v.Sized() && |store| == |v.graph.tensors| && v.Agree(tensors, store, i, done) && v.Held(i) <= tensors
    ensures v.Agree(v.Held(i), store, i, done)
  {}

  lemma {:induction false} ScatterGather(g: Graph, store: Store, ids: seq<int>, k: nat)
    requires |store| == |g.tensors| && k <= |ids| && forall j :: 0 <= j < |ids| ==> g.IsTensorOrOptional(ids[j])
    ensures Scatter(g, store, ids, Gather(g, store, ids), k) == store
  {
    if k > 0 {
      ScatterGather(g, store, ids, k - 1);
    }
  }

  predicate Operand(g: Graph, i: nat, t: int)
    requires i < |g.nodes|
  {
    g.Reads(i, t) || g.Writes(i, t) || g.Scratches(i, t)
  }

  /** Every operand of a planned node is queued. */
  lemma OperandsAreReachable(v: View, i: int, done: int)
    requires v.Sound(done) && 0 <= i < done && i < |v.graph.nodes|
    ensures forall t :: Operand(v.graph, i, t) && OnArena(v.graph, t) ==> 0 <= v.allocNode[t] < done
  {
    var g := v.graph;
    forall t | (g.Reads(i, t) || g.Writes(i, t)) && OnArena(g, t)
      ensures 0 <= v.allocNode[t] < done
    {
      NotScratched(g, i, t, done);
      if !g.Given(t) {
        var k :| 0 <= k < |g.nodes| && g.Writes(k, t);
        AllocNodeOfWritten(g, t, k);
      }
    }
  }

  lemma PinnedOwnsItself(g: Graph, preserve: bool, t: int)
    requires Runnable(g) && (t in g.outputs || g.Given(t)) && t != OPTIONAL
    ensures Owner(g, Aliases(g, preserve), t) == t
  {
    InPlaceMapSound(g, ReferenceCounts(g), preserve, |g.nodes|);
  }

  /** Graph inputs, outputs and variables are never released, so they still hold their data at the end. */
  lemma OutputsSurvive(v: View, store: Store, done: int, t: int)
    requires v.Sound(done) && |v.graph.nodes| <= done && done > 0 && |store| == |v.graph.tensors|
    requires v.Agree(v.Held(|v.graph.nodes|), store, |v.graph.nodes|, done)
    requires v.graph.IsTensor(t) && (t in v.graph.outputs || v.graph.Given(t)) && HasData(v.graph, t, |v.graph.nodes|)
    ensures v.Home(t) == t && v.Contents(t) == store[t]
  {
    forall k | 0 <= k < |v.graph.nodes|
      ensures !v.graph.Scratches(k, t)
    {}
    assert !ScratchedIn(v.graph, 0, done, t);
    PinnedNeverDeallocated(v.graph, Aliases(v.graph, v.preserve), v.preserve, t);
    PinnedOwnsItself(v.graph, v.preserve, t);
    assert t in v.Held(|v.graph.nodes|);
  }

  /** A planner with the lifetimes of the graph. */
  method MakePlanner(g: Graph, preserve: bool, alignment: nat) returns (planner: ArenaPlanner)
    requires Runnable(g) && 0 < alignment <= DEFAULT_ARENA_ALIGNMENT
    ensures fresh(planner) && fresh(planner.arena) && fresh(planner.persistentArena)
    ensures fresh(planner.arena.buffer) && fresh(planner.persistentArena.buffer)
    ensures fresh(planner.arena.buffer.data) && fresh(planner.persistentArena.buffer.data)
    ensures planner.graph == g && planner.preserveAllTensors == preserve && planner.Ready(0)
    ensures g.WellIndexed() && InPlaceHasOutput(g) && planner.actualTensorId == Aliases(g, preserve)
    ensures LifetimesKnown(g, preserve, planner.allocNode, planner.deallocNode, 0)
  {
    RunnableIsOrdered(g);
    hide Runnable;
    hide LifetimesKnown;
    hide Graph.WellIndexed;
    hide Graph.SingleProducer;
    hide Graph.DependencyOrder;
    hide Graph.PrivateTemporaries;
    hide InPlaceHasOutput;
    hide QueuedByPlan;
    hide AllocNode;
    hide DeallocNode;
    hide InPlaceMap;
    hide ArenaPlanner.Ready;
    planner := new ArenaPlanner(g, preserve, alignment);
    var ok := planner.PlanAllocations();
    assert planner.refcounts == ReferenceCounts(g);
    planner.ReadyAfterPlan();
    PlannedLifetimes(g, preserve, planner.allocNode, planner.deallocNode);
  }

  lemma RunnableIsOrdered(g: Graph)
    requires Runnable(g)
    ensures g.WellIndexed() && InPlaceHasOutput(g) && |g.nodes| < NOT_ASSIGNED
    ensures g.SingleProducer() && g.DependencyOrder() && g.PrivateTemporaries()
  {}

  lemma PlannedLifetimes(g: Graph, preserve: bool, allocNode: seq<int>, deallocNode: seq<int>)
    requires |allocNode| == |deallocNode| == |g.tensors|
    requires forall t :: 0 <= t < |allocNode| ==> allocNode[t] == AllocNode(g, t)
    requires g.WellIndexed() && InPlaceHasOutput(g)
    requires forall t :: 0 <= t < |deallocNode| ==> deallocNode[t] == DeallocNode(g, Aliases(g, preserve), preserve, t)
    ensures LifetimesKnown(g, preserve, allocNode, deallocNode, 0)
  {}

  lemma OutputsArePrivate(g: Graph, preserve: bool, kernel: Kernel, initial: Store)
    requires Runnable(g) && WellSized(g, kernel) && AllFit(g, initial)
    requires Undisturbed(g, Aliases(g, preserve)) && CopiesShared(g, Aliases(g, preserve), kernel)
    ensures forall t :: g.IsTensor(t) && (t in g.outputs || g.Given(t)) ==>
      RunSharing(g, Aliases(g, preserve), kernel, initial, |g.nodes|)[t]
        == RunPrivately(g, kernel, initial, |g.nodes|)[t]
  {
    UndisturbedAgrees(g, preserve, kernel, initial, |g.nodes|);
    forall t | g.IsTensor(t) && (t in g.outputs || g.Given(t))
      ensures RunSharing(g, Aliases(g, preserve), kernel, initial, |g.nodes|)[t]
        == RunPrivately(g, kernel, initial, |g.nodes|)[t]
    {
      PinnedOwnsItself(g, preserve, t);
      assert UsedAt(g, |g.nodes|, t) && !WrittenFrom(g, t, |g.nodes|);
    }
  }

  /** Graphs in which planning records no alias are undisturbed, whatever their operators promise. */
  lemma NothingIsDisturbed(g: Graph, preserve: bool, kernel: Kernel)
    requires Runnable(g) && Aliases(g, preserve) == map[]
    ensures NoneLost(g, Aliases(g, preserve)) && Undisturbed(g, Aliases(g, preserve))
    ensures CopiesShared(g, Aliases(g, preserve), kernel)
  {
    forall i: nat | i < |g.nodes| && Forwards(g, g.nodes[i])
      ensures !CopiesInPlace(g, map[], i, g.nodes[i].outputs[0])
    {
      assert g.Reads(i, g.nodes[i].inputs[0]) && g.Writes(i, g.nodes[i].outputs[0]);
    }
  }

  /** The guards for sharing let an alias in the persistent arena be left without bytes. */
  lemma PersistentAliasIsLost()
    ensures Runnable(Chain(ArenaRwPersistent)) && CopiesFirstInput(Chain(ArenaRwPersistent))
    ensures !NoneLost(Chain(ArenaRwPersistent), Aliases(Chain(ArenaRwPersistent), false))
  {
    ChainIsRunnable(ArenaRwPersistent);
    ChainAliases(ArenaRwPersistent);
    hide Runnable;
    hide CopiesFirstInput;
    assert IsLost(Chain(ArenaRwPersistent), map[1 := 0, 2 := 0, 3 := 0], 3);
  }

  // ----- the interpreter: nodes read and write through the planner's data pointers -----

  class Interpreter {
    const planner: ArenaPlanner
    /** Contents of the tensors that have no bytes in an arena. */
    var external: seq<seq<byte>>

    constructor (planner: ArenaPlanner, external: seq<seq<byte>>)
      ensures this.planner == planner && this.external == external
    {
      this.planner := planner;
      this.external := external;
    }

    ghost function Memory(): View
      reads this, planner, planner.arena.buffer, planner.persistentArena.buffer
      reads planner.arena.buffer.data, planner.persistentArena.buffer.data
    {
      View(planner.graph, planner.preserveAllTensors, planner.actualTensorId, planner.allocs, planner.allocNode,
           planner.deallocNode, planner.arena.buffer.data[..],
           planner.persistentArena.buffer.data[..], external)
    }

    function BlockOf(t: int): array<byte>
      requires planner.graph.IsTensor(t)
      reads planner.arena.buffer, planner.persistentArena.buffer
    {
      if planner.graph.tensors[t].allocationType == ArenaRw then planner.arena.buffer.data
          else planner.persistentArena.buffer.data
    }

    /** The tensors of planned nodes have disjoint bytes, and their pointers lead to them. */
    ghost predicate Wired(done: int)
      reads this, planner, planner.arena.buffer, planner.persistentArena.buffer
      reads planner.arena.buffer.data, planner.persistentArena.buffer.data
    {
      Memory().Laid(done) && Pointed(done)
    }

    /** The pointer of every tensor of a planned node leads to its bytes, or to those of its owner. */
    ghost predicate Pointed(done: int)
      reads planner, planner.arena.buffer, planner.persistentArena.buffer
    {
      && |planner.data| == |planner.allocNode| == |planner.allocs| == |planner.graph.tensors|
      && planner.arena.buffer.data != planner.persistentArena.buffer.data
      && forall t :: OnArena(planner.graph, t) && 0 <= planner.allocNode[t] < done ==> PointsHome(t, done)
    }

    ghost predicate PointsHome(t: int, done: int)
      requires planner.graph.IsTensor(t)
      requires |planner.data| == |planner.allocNode| == |planner.allocs| == |planner.graph.tensors|
      reads planner, planner.arena.buffer, planner.persistentArena.buffer
    {
      var home := Owner(planner.graph, planner.actualTensorId, t);
      && OnArena(planner.graph, home) && Owner(planner.graph, planner.actualTensorId, home) == home
      && 0 <= planner.allocNode[home] < done && planner.data[t] == Pointer(BlockOf(home), planner.allocs[home].offset)
    }

    lemma WiredIsSized(done: int)
      requires Wired(done)
      ensures Memory().Sized() && |planner.allocNode| == |planner.data| == |planner.graph.tensors|
      ensures planner.arena.buffer.data != planner.persistentArena.buffer.data
    {}

    /** Where the pointer of a tensor leads. */
    lemma PointerIsHome(t: int, done: int)
      requires Wired(done) && Reachable(t, done) && OnArena(planner.graph, t)
      ensures var home := Memory().Home(t);
        && Memory().PlacedBy(home, done) && Memory().WellPlaced(home)
        && planner.graph.tensors[home].bytes == planner.graph.tensors[t].bytes
        && planner.data[t] == Pointer(BlockOf(home), planner.allocs[home].offset)
    {
      assert PointsHome(t, done);
    }

    /** Whatever node `i` may touch is placed. */
    predicate Reachable(t: int, done: int)
      requires |planner.allocNode| == |planner.graph.tensors|
      reads planner
    {
      planner.graph.IsTensor(t) && (OnArena(planner.graph, t) ==> 0 <= planner.allocNode[t] < done)
    }

    method ReadTensor(t: int, ghost done: int) returns (value: seq<byte>)
      requires Wired(done) && Reachable(t, done)
      ensures value == Memory().Contents(Memory().Home(t))
    {
      var tensor := planner.graph.tensors[t];
      if tensor.InArena() && tensor.bytes > 0 {
        PointerIsHome(t, done);
        hide Wired;
        var p := planner.data[t];
        value := p.base[p.offset..p.offset + tensor.bytes];
      } else {
        value := external[t];
      }
    }

    method WriteTensor(t: int, value: seq<byte>, ghost done: int)
      requires Wired(done) && Reachable(t, done) && FitsTensor(planner.graph, t, value)
      modifies this, planner.arena.buffer.data, planner.persistentArena.buffer.data
      ensures Wired(done)
      ensures old(OnArena(planner.graph, Memory().Home(t)) ==> Memory().WellPlaced(Memory().Home(t)))
      ensures Memory() == old(Memory()).Write(old(Memory()).Home(t), value)
    {
      hide View.Laid;
      hide Pointed;
      hide Poked;
      hide PointsHome;
      WiredIsSized(done);
      ghost var before := Memory();
      ghost var home := before.Home(t);
      var tensor := planner.graph.tensors[t];
      if tensor.InArena() && tensor.bytes > 0 {
        PointerIsHome(t, done);
        WriteKeepsLaid(before, home, value, done);
        var p := planner.data[t];
        Overwrite(p.base, p.offset, value);
      } else {
        HomeOutside(before, t);
        WriteKeepsLaid(before, home, value, done);
        external := external[t := value];
      }
    }

    method ReadTensors(ids: seq<int>, ghost done: int) returns (values: seq<seq<byte>>)
      requires Wired(done)
      requires forall j :: 0 <= j < |ids| ==>
        planner.graph.IsTensorOrOptional(ids[j]) && (ids[j] == OPTIONAL || Reachable(ids[j], done))
      ensures values == ReadList(Memory(), Memory().Homes(ids))
    {
      values := [];
      for k := 0 to |ids|
        invariant |values| == k
        invariant forall j :: 0 <= j < k ==>
          values[j] == if ids[j] == OPTIONAL then [] else Memory().Contents(Memory().Home(ids[j]))
      {
        var value := [];
        if ids[k] != OPTIONAL {
          value := ReadTensor(ids[k], done);
        }
        values := values + [value];
      }
    }

    method WriteTensors(ids: seq<int>, values: seq<seq<byte>>, ghost done: int)
      requires Wired(done) && Fits(planner.graph, ids, values)
      requires forall j :: 0 <= j < |ids| ==>
        planner.graph.IsTensorOrOptional(ids[j]) && (ids[j] == OPTIONAL || Reachable(ids[j], done))
      requires Memory().Writable(Memory().Homes(ids), values)
      modifies this, planner.arena.buffer.data, planner.persistentArena.buffer.data
      ensures Memory() == old(Memory()).WriteList(old(Memory()).Homes(ids), values, |ids|) && Wired(done)
    {
      WiredIsSized(done);
      hide Wired;
      hide View.Writable;
      hide View.Write;
      hide FitsTensor;
      ghost var before, homes := Memory(), Memory().Homes(ids);
      for k := 0 to |ids|
        invariant Wired(done)
        invariant Memory() == before.WriteList(homes, values, k)
      {
        if ids[k] != OPTIONAL {
          WriteTensor(ids[k], values[k], done);
        }
      }
    }

    /** Writes what node `i` has computed. */
    method StoreResult(i: int, result: KernelResult, ghost done: int)
      requires Wired(done) && Memory().Sound(done) && 0 <= i < done && i < |planner.graph.nodes|
      requires RoomForNode(Memory(), i) && ResultFits(planner.graph, i, result)
      modifies this, planner.arena.buffer.data, planner.persistentArena.buffer.data
      ensures Memory() == WriteNode(old(Memory()), i, result) && Wired(done)
    {
      var node := planner.graph.nodes[i];
      WiredIsSized(done);
      OperandsAreReachable(Memory(), i, done);
      TemporariesAreHome(Memory(), i, done);
      TemporariesAreWritable(Memory(), i, result);
      hide Wired;
      hide View.Sound;
      hide View.Writable;
      hide View.WriteList;
      hide Owner;
      hide OnArena;
      hide FitsTensor;
      ghost var before := Memory();
      WriteTensors(node.temporaries, result.temporaries, done);
      OutputsAreWritable(before, Memory(), i, result);
      WriteTensors(node.outputs, result.outputs, done);
    }

    /** Runs one node on the arenas. */
    method Execute(i: int, kernel: Kernel, ghost done: int)
      requires Wired(done) && Memory().Sound(done) && 0 <= i < done && i < |planner.graph.nodes|
      requires WellSized(planner.graph, kernel) && RoomForNode(Memory(), i)
      modifies this, planner.arena.buffer.data, planner.persistentArena.buffer.data
      ensures Memory() == RunNodeShared(old(Memory()), kernel, i) && Wired(done)
    {
      WiredIsSized(done);
      OperandsAreReachable(Memory(), i, done);
      RunnableIsIndexed(planner.graph);
      hide Runnable;
      hide Wired;
      hide View.Laid;
      hide LifetimesKnown;
      hide RoomForNode;
      hide WriteNode;
      hide Fits;
      hide OnArena;
      var values := ReadTensors(planner.graph.nodes[i].inputs, done);
      StoreResult(i, kernel(i, values), done);
    }

    /** What the interpreter asks of its planner between ranges. */
    ghost predicate Prepared(done: int)
      reads planner, planner.arena, planner.persistentArena, planner.arena.buffer, planner.persistentArena.buffer
    {
      && planner.Ready(done) && planner.AllFollow(done) && planner.AliasesSettled(done)
      && NoneLost(planner.graph, planner.actualTensorId)
    }

    /** A prepared planner has every placed tensor in a place of its own, and every alias at its owner's. */
    lemma PreparedIsWired(done: int)
      requires Prepared(done) && planner.OwnersFirst() && |external| == |planner.graph.tensors|
      ensures Wired(done)
    {
      PreparedIsLaid(done);
      PreparedIsPointed(done);
    }

    lemma PreparedIsLaid(done: int)
      requires Prepared(done) && |external| == |planner.graph.tensors|
      ensures Memory().Laid(done)
    {
      var v := Memory();
      forall t | v.PlacedBy(t, done)
        ensures v.WellPlaced(t)
      {
        PlacedIsOwner(t, done);
      }
      forall t, u | v.PlacedBy(t, done) && v.PlacedBy(u, done) && t != u && v.InRw(t) == v.InRw(u)
        ensures Compatible(v.allocs[t], v.allocs[u])
      {
        PlacedIsOwner(t, done);
        PlacedIsOwner(u, done);
      }
    }

    lemma PreparedIsPointed(done: int)
      requires Prepared(done) && planner.OwnersFirst() && |external| == |planner.graph.tensors|
      ensures Pointed(done)
    {
      var v := Memory();
      forall t | OnArena(planner.graph, t) && 0 <= planner.allocNode[t] < done
        ensures PointsHome(t, done)
      {
        if KeepsAlias(planner.graph, planner.actualTensorId, t) {
          var owner := planner.actualTensorId[t];
          assert v.PlacedBy(owner, done);
          PlacedIsOwner(owner, done);
          assert planner.Follows(t);
        } else {
          assert v.PlacedBy(t, done);
          PlacedIsOwner(t, done);
        }
      }
    }

    lemma PlacedIsOwner(t: int, done: int)
      requires Prepared(done) && Memory().Sized() && Memory().PlacedBy(t, done)
      ensures t in planner.Owners(planner.graph.tensors[t].allocationType, done)
    {}

    lemma PreparedIsSized(done: int)
      requires Prepared(done)
      ensures planner.GoodGraph() && planner.Sized() && 0 <= done <= Max(|planner.graph.nodes|, 1)
    {}

    /** Lifetimes and owners are those of the plan of the whole graph. */
    ghost predicate Planned(done: int)
      reads planner, planner.arena, planner.persistentArena, planner.arena.buffer, planner.persistentArena.buffer
    {
      && Prepared(done) && Runnable(planner.graph)
      && LifetimesKnown(planner.graph, planner.preserveAllTensors, planner.allocNode, planner.deallocNode, done)
      && SameOwners(planner.graph, planner.actualTensorId, Aliases(planner.graph, planner.preserveAllTensors))
    }

    /** Before the first range nothing is placed. */
    lemma StartsPlanned()
      requires planner.Ready(0) && Runnable(planner.graph)
      requires planner.actualTensorId == Aliases(planner.graph, planner.preserveAllTensors)
      requires NoneLost(planner.graph, Aliases(planner.graph, planner.preserveAllTensors))
      requires |planner.allocNode| == |planner.deallocNode| == |planner.graph.tensors|
      requires LifetimesKnown(planner.graph, planner.preserveAllTensors, planner.allocNode, planner.deallocNode, 0)
      ensures Planned(0)
    {
      hide Runnable;
      hide LifetimesKnown;
      hide NoneLost;
    }

    lemma PlannedIsOrdered(done: int)
      requires Planned(done)
      ensures planner.Sized() && planner.OwnersFirst()
    {
      OwnersAreFirst(planner.graph, planner.preserveAllTensors, planner.actualTensorId, planner.allocNode,
                     planner.deallocNode, done);
    }

    /** The contents of all buffers after the first `n` nodes. */
    ghost function RunShared(kernel: Kernel, initial: Store, n: nat): (r: Store)
      requires Runnable(planner.graph) && WellSized(planner.graph, kernel)
      requires |initial| == |planner.graph.tensors| && n <= |planner.graph.nodes|
      ensures |r| == |initial|
    {
      RunSharing(planner.graph, Aliases(planner.graph, planner.preserveAllTensors), kernel, initial, n)
    }

    /** The memory agrees with the contents of the buffers when node `next` starts. */
    ghost predicate Synced(store: Store, next: int, done: int)
      reads this, planner, planner.arena.buffer, planner.persistentArena.buffer
      reads planner.arena.buffer.data, planner.persistentArena.buffer.data
    {
      && Memory().Sound(done) && Wired(done)
      && |store| == |planner.graph.tensors| && Memory().Agree(Memory().Held(next), store, next, done)
    }

    /** The first `next` nodes have run, and the memory agrees with the contents of the buffers. */
    ghost predicate InStep(kernel: Kernel, initial: Store, next: int, done: int)
      reads this, planner, planner.arena.buffer, planner.persistentArena.buffer
      reads planner.arena.buffer.data, planner.persistentArena.buffer.data
    {
      && Runnable(planner.graph) && WellSized(planner.graph, kernel) && |initial| == |planner.graph.tensors|
      && 0 <= next <= |planner.graph.nodes| && Synced(RunShared(kernel, initial, next), next, done)
    }

    method Advance(first: int, last: int)
      requires Planned(first) && |external| == |planner.graph.tensors|
      requires 0 <= first <= last < Max(|planner.graph.nodes|, 1)
      modifies planner, planner.arena, planner.persistentArena, planner.arena.buffer, planner.persistentArena.buffer
      ensures Planned(last + 1) && Wired(last + 1)
      ensures Extended(old(Memory()), Memory(), first, last)
      ensures planner.arena.buffer.data == old(planner.arena.buffer.data) || fresh(planner.arena.buffer.data)
      ensures planner.persistentArena.buffer.data == old(planner.persistentArena.buffer.data)
        || fresh(planner.persistentArena.buffer.data)
    {
      hide Wired;
      hide LifetimesExtended;
      hide LifetimesKnown;
      hide ArenaPlanner.Ready;
      hide ArenaPlanner.AllFollow;
      hide ArenaPlanner.OwnersFirst;
      ghost var v := Memory();
      PreparedIsSized(first);
      PlannedIsOrdered(first);
      var ok := planner.ExecuteAllocations(first, last);
      PreparedIsSized(last + 1);
      LifetimesStayKnown(v.graph, v.preserve, v.allocNode, v.deallocNode, planner.allocNode, planner.deallocNode,
                         first, last);
      PlannedIsOrdered(last + 1);
      PreparedIsWired(last + 1);
    }

    /** Plans the next range: the blocks may move, but every tensor holding data keeps its contents. */
    method PlanNext(first: int, last: int, ghost store: Store)
      requires Planned(first) && Synced(store, first, first)
        && 0 < first <= last < Max(|planner.graph.nodes|, 1) && first <= |planner.graph.nodes|
      modifies planner, planner.arena, planner.persistentArena, planner.arena.buffer, planner.persistentArena.buffer
      ensures Planned(last + 1) && Synced(store, first, last + 1)
      ensures planner.arena.buffer.data == old(planner.arena.buffer.data) || fresh(planner.arena.buffer.data)
      ensures planner.persistentArena.buffer.data == old(planner.persistentArena.buffer.data)
        || fresh(planner.persistentArena.buffer.data)
    {
      ghost var before := Memory();
      Advance(first, last);
      Grown(before, Memory(), store, first, last);
    }

    /** Runs the next node. */
    method RunStep(i: int, kernel: Kernel, ghost initial: Store, ghost done: int)
      requires InStep(kernel, initial, i, done) && 0 <= i < done && i < |planner.graph.nodes|
      modifies this, planner.arena.buffer.data, planner.persistentArena.buffer.data
      ensures InStep(kernel, initial, i + 1, done)
    {
      hide Runnable;
      RunnableIsIndexed(planner.graph);
      hide WellSized;
      hide RunNodeShared;
      hide RunNodeSharing;
      hide RoomForNode;
      hide View.Laid;
      hide View.Agree;
      hide LifetimesKnown;
      ghost var store := RunShared(kernel, initial, i);
      RunNodeRefines(Memory(), kernel, store, i, done);
      SameOwnersRunAlike(planner.graph, planner.actualTensorId, Aliases(planner.graph, planner.preserveAllTensors),
                         kernel, store, i);
      Execute(i, kernel, done);
    }

    /** Runs the planned nodes first..last. */
    method RunRange(first: int, last: int, kernel: Kernel, ghost initial: Store) returns (next: int)
      requires 0 <= first <= last && first <= |planner.graph.nodes| && InStep(kernel, initial, first, last + 1)
      modifies this, planner.arena.buffer.data, planner.persistentArena.buffer.data
      ensures next == Min(last + 1, |planner.graph.nodes|) && InStep(kernel, initial, next, last + 1)
    {
      hide InStep;
      next := first;
      while next <= last && next < |planner.graph.nodes|
        invariant first <= next <= Min(last + 1, |planner.graph.nodes|)
        invariant InStep(kernel, initial, next, last + 1)
      {
        RunStep(next, kernel, initial, last + 1);
        next := next + 1;
      }
    }

    /** Stores the graph inputs and variables once the first range is planned. */
    method LoadGiven(initial: Store, ghost done: int)
      requires Memory().Sound(done) && Wired(done) && done > 0 && AllFit(planner.graph, initial)
      requires forall t :: planner.graph.IsTensor(t) && !OnArena(planner.graph, t) ==> external[t] == initial[t]
      modifies this, planner.arena.buffer.data, planner.persistentArena.buffer.data
      ensures Synced(initial, 0, done)
    {
      var ids := planner.graph.inputs + planner.graph.variables;
      var values := Gather(planner.graph, initial, ids);
      LoadingAgrees(Memory(), initial, done);
      hide View.Laid;
      hide View.Agree;
      hide LifetimesKnown;
      hide Runnable;
      hide View.Writable;
      WriteTensors(ids, values, done);
    }

    /** What is in no arena has its initial contents. */
    ghost predicate Outside(initial: Store)
      reads this
    {
      && AllFit(planner.graph, initial) && |external| == |planner.graph.tensors|
      && forall t :: planner.graph.IsTensor(t) && !OnArena(planner.graph, t) ==> external[t] == initial[t]
    }

    /** Plans the first range and stores the given tensors. */
    method PlanFirst(last: int, initial: Store)
      requires Planned(0) && Outside(initial) && 0 <= last < Max(|planner.graph.nodes|, 1)
      modifies this, planner, planner.arena, planner.persistentArena, planner.arena.buffer,
          planner.persistentArena.buffer
      modifies planner.arena.buffer.data, planner.persistentArena.buffer.data
      ensures Planned(last + 1) && Synced(initial, 0, last + 1)
      ensures planner.arena.buffer.data == old(planner.arena.buffer.data) || fresh(planner.arena.buffer.data)
      ensures planner.persistentArena.buffer.data == old(planner.persistentArena.buffer.data)
        || fresh(planner.persistentArena.buffer.data)
    {
      hide Synced;
      hide Planned;
      hide Wired;
      hide View.Sound;
      hide Extended;
      hide AllFit;
      Advance(0, last);
      PlannedIsSound(last + 1);
      LoadGiven(initial, last + 1);
    }

    lemma PlannedIsSound(done: int)
      requires Planned(done) && Wired(done)
      ensures Memory().Sound(done)
    {
      hide Runnable;
      hide LifetimesKnown;
      hide View.Laid;
      hide Prepared;
    }

    /** Plans the first range, stores the given tensors and runs the range. */
    method PlanAndRunFirst(last: int, kernel: Kernel, initial: Store) returns (next: int)
      requires Planned(0) && WellSized(planner.graph, kernel) && Outside(initial)
      requires 0 <= last < Max(|planner.graph.nodes|, 1)
      modifies this, planner, planner.arena, planner.persistentArena, planner.arena.buffer,
          planner.persistentArena.buffer
      modifies planner.arena.buffer.data, planner.persistentArena.buffer.data
      ensures next == Min(last + 1, |planner.graph.nodes|)
      ensures Planned(last + 1) && InStep(kernel, initial, next, last + 1)
      ensures planner.arena.buffer.data == old(planner.arena.buffer.data) || fresh(planner.arena.buffer.data)
      ensures planner.persistentArena.buffer.data == old(planner.persistentArena.buffer.data)
        || fresh(planner.persistentArena.buffer.data)
    {
      hide WellSized;
      hide Planned;
      hide InStep;
      hide Synced;
      hide Outside;
      PlanFirst(last, initial);
      StartsInStep(kernel, initial, last + 1);
      next := RunRange(0, last, kernel, initial);
    }

    lemma StartsInStep(kernel: Kernel, initial: Store, done: int)
      requires Planned(done) && WellSized(planner.graph, kernel) && Synced(initial, 0, done)
      ensures InStep(kernel, initial, 0, done)
    {
      hide View.Sound;
      hide View.Agree;
      hide Wired;
      hide Prepared;
      hide Runnable;
      hide WellSized;
      hide LifetimesKnown;
    }

    /** Plans and runs a later range. */
    method PlanAndRunNext(first: int, last: int, kernel: Kernel, ghost initial: Store) returns (next: int)
      requires Planned(first) && InStep(kernel, initial, first, first) && 0 < first <= last < |planner.graph.nodes|
      modifies this, planner, planner.arena, planner.persistentArena, planner.arena.buffer,
          planner.persistentArena.buffer
      modifies planner.arena.buffer.data, planner.persistentArena.buffer.data
      ensures next == Min(last + 1, |planner.graph.nodes|)
      ensures Planned(last + 1) && InStep(kernel, initial, next, last + 1)
      ensures planner.arena.buffer.data == old(planner.arena.buffer.data) || fresh(planner.arena.buffer.data)
      ensures planner.persistentArena.buffer.data == old(planner.persistentArena.buffer.data)
        || fresh(planner.persistentArena.buffer.data)
    {
      hide Synced;
      hide Planned;
      hide Runnable;
      hide WellSized;
      PlanNext(first, last, RunShared(kernel, initial, first));
      assert InStep(kernel, initial, first, last + 1);
      hide InStep;
      next := RunRange(first, last, kernel, initial);
    }

    /** Plans and runs the graph in consecutive ranges that end at `ends`. The shared arenas then hold,
        for every owner not yet released, exactly what its buffer would. */
    method Invoke(kernel: Kernel, initial: Store, ends: seq<int>)
      requires Planned(0) && WellSized(planner.graph, kernel) && Outside(initial)
      requires Consecutive(ends, Max(|planner.graph.nodes|, 1))
      modifies this, planner, planner.arena, planner.persistentArena, planner.arena.buffer,
          planner.persistentArena.buffer
      modifies planner.arena.buffer.data, planner.persistentArena.buffer.data
      ensures InStep(kernel, initial, |planner.graph.nodes|, Max(|planner.graph.nodes|, 1))
    {
      hide Planned;
      hide InStep;
      hide Outside;
      hide Consecutive;
      hide WellSized;
      ConsecutiveBounds(ends, Max(|planner.graph.nodes|, 1));
      var last, k := ends[0], 1;
      var next := PlanAndRunFirst(last, kernel, initial);
      while k < |ends|
        invariant 1 <= k <= |ends| && last == ends[k - 1] && 0 <= last && next == Min(last + 1, |planner.graph.nodes|)
        invariant Planned(last + 1) && InStep(kernel, initial, next, last + 1)
        invariant planner.arena.buffer.data == old(planner.arena.buffer.data) || fresh(planner.arena.buffer.data)
        invariant planner.persistentArena.buffer.data == old(planner.persistentArena.buffer.data)
          || fresh(planner.persistentArena.buffer.data)
      {
        ConsecutiveStep(ends, Max(|planner.graph.nodes|, 1), k);
        assert next == last + 1;
        last := ends[k];
        next := PlanAndRunNext(next, last, kernel, initial);
        k := k + 1;
      }
      assert next == |planner.graph.nodes| && last + 1 == Max(|planner.graph.nodes|, 1);
    }
  }

  /** An interpreter whose planner has the lifetimes of the graph. */
  method PlanGraph(g: Graph, preserve: bool, alignment: nat, external: Store) returns (interpreter: Interpreter)
    requires Runnable(g) && NoneLost(g, Aliases(g, preserve)) && 0 < alignment <= DEFAULT_ARENA_ALIGNMENT
    ensures fresh(interpreter) && fresh(interpreter.planner)
    ensures fresh(interpreter.planner.arena) && fresh(interpreter.planner.persistentArena)
    ensures fresh(interpreter.planner.arena.buffer) && fresh(interpreter.planner.persistentArena.buffer)
    ensures fresh(interpreter.planner.arena.buffer.data) && fresh(interpreter.planner.persistentArena.buffer.data)
    ensures interpreter.planner.graph == g && interpreter.planner.preserveAllTensors == preserve
    ensures interpreter.external == external && interpreter.Planned(0)
  {
    hide Runnable;
    hide NoneLost;
    var planner := MakePlanner(g, preserve, alignment);
    interpreter := new Interpreter(planner, external);
    interpreter.StartsPlanned();
  }

  /** From a graph to its results: plan, place, run. For every graph, every alignment up to that of the blocks and every
      division into ranges, the outputs are those of shared buffers; if no contents are overwritten that are used later,
      they are those of private storage. */
  method PlanAndInvoke(g: Graph, preserve: bool, alignment: nat, kernel: Kernel, initial: Store, ends: seq<int>)
    returns (interpreter: Interpreter)
    requires Runnable(g) && NoneLost(g, Aliases(g, preserve)) && WellSized(g, kernel)
      && 0 < alignment <= DEFAULT_ARENA_ALIGNMENT
    requires AllFit(g, initial) && Consecutive(ends, Max(|g.nodes|, 1))
    ensures interpreter.planner.graph == g && interpreter.planner.preserveAllTensors == preserve
    ensures interpreter.Synced(RunSharing(g, Aliases(g, preserve), kernel, initial, |g.nodes|), |g.nodes|,
      Max(|g.nodes|, 1))
    ensures Undisturbed(g, Aliases(g, preserve)) && CopiesShared(g, Aliases(g, preserve), kernel) ==>
      forall t :: g.IsTensor(t) && (t in g.outputs || g.Given(t)) && HasData(g, t, |g.nodes|) ==>
        interpreter.Memory().Contents(t) == RunPrivately(g, kernel, initial, |g.nodes|)[t]
  {
    interpreter := PlanGraph(g, preserve, alignment, initial);
    interpreter.Invoke(kernel, initial, ends);
    hide WellSized;
    OutputsAreSynced(interpreter, RunSharing(g, Aliases(g, preserve), kernel, initial, |g.nodes|),
                     Max(|g.nodes|, 1));
    if Undisturbed(g, Aliases(g, preserve)) && CopiesShared(g, Aliases(g, preserve), kernel) {
      OutputsArePrivate(g, preserve, kernel, initial);
    }
  }

  lemma OutputsAreSynced(interpreter: Interpreter, store: Store, done: int)
    requires |interpreter.planner.graph.nodes| <= done && done > 0
    requires interpreter.Synced(store, |interpreter.planner.graph.nodes|, done)
    ensures var g := interpreter.planner.graph;
      forall t :: g.IsTensor(t) && (t in g.outputs || g.Given(t)) && HasData(g, t, |g.nodes|) ==>
        interpreter.Memory().Contents(t) == store[t]
  {
    var g := interpreter.planner.graph;
    forall t | g.IsTensor(t) && (t in g.outputs || g.Given(t)) && HasData(g, t, |g.nodes|)
      ensures interpreter.Memory().Contents(t) == store[t]
    {
      OutputsSurvive(interpreter.Memory(), store, done, t);
    }
  }
}
