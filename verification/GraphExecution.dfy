/** Running a graph node by node when every tensor has memory of its own.

    Operators are arbitrary functions from input contents to output and temporary contents. */
module GraphExecution {
  import opened Bytes
  import opened Graphs

  type Store = seq<seq<byte>>

  datatype KernelResult = KernelResult(outputs: seq<seq<byte>>, temporaries: seq<seq<byte>>)

  /** What operator `i` computes from the contents of its inputs. */
  type Kernel = (int, seq<seq<byte>>) -> KernelResult

  /** The contents have the sizes the graph declares, wherever a size is declared. */
  predicate Fits(g: Graph, ids: seq<int>, values: seq<seq<byte>>) {
    |values| == |ids| && forall j :: 0 <= j < |ids| && g.IsTensor(ids[j]) ==> FitsTensor(g, ids[j], values[j])
  }

  predicate FitsTensor(g: Graph, t: int, value: seq<byte>)
    requires g.IsTensor(t)
  {
    g.tensors[t].InArena() ==> |value| == g.tensors[t].bytes
  }

  ghost predicate WellSized(g: Graph, kernel: Kernel) {
    forall i, ins :: 0 <= i < |g.nodes| ==>
      && Fits(g, g.nodes[i].outputs, kernel(i, ins).outputs)
      && Fits(g, g.nodes[i].temporaries, kernel(i, ins).temporaries)
  }

  /** The contents of an operand; an absent optional operand has none. */
  function Fetch(store: Store, t: int): seq<byte>
    requires t == OPTIONAL || 0 <= t < |store|
  {
    if t == OPTIONAL then [] else store[t]
  }

  function Gather(g: Graph, store: Store, ids: seq<int>): seq<seq<byte>>
    requires |store| == |g.tensors| && forall j :: 0 <= j < |ids| ==> g.IsTensorOrOptional(ids[j])
  {
    seq(|ids|, j requires 0 <= j < |ids| && g.IsTensorOrOptional(ids[j]) => Fetch(store, ids[j]))
  }

  /** The store after writing the first `k` values. */
  function Scatter(g: Graph, store: Store, ids: seq<int>, values: seq<seq<byte>>, k: nat): (r: Store)
    requires |store| == |g.tensors| && |values| == |ids| && k <= |ids|
    requires forall j :: 0 <= j < |ids| ==> g.IsTensorOrOptional(ids[j])
    ensures |r| == |store|
  {
    if k == 0 then store
    else
      var before := Scatter(g, store, ids, values, k - 1);
      if ids[k - 1] == OPTIONAL then before else before[ids[k - 1] := values[k - 1]]
  }

  function RunNode(g: Graph, kernel: Kernel, store: Store, i: nat): (r: Store)
    requires g.WellIndexed() && WellSized(g, kernel) && |store| == |g.tensors| && i < |g.nodes|
    ensures |r| == |store|
  {
    var node := g.nodes[i];
    var result := kernel(i, Gather(g, store, node.inputs));
    var scratched := Scatter(g, store, node.temporaries, result.temporaries, |node.temporaries|);
    Scatter(g, scratched, node.outputs, result.outputs, |node.outputs|)
  }

  /** The store after the first `n` nodes. */
  function RunPrivately(g: Graph, kernel: Kernel, store: Store, n: nat): (r: Store)
    requires g.WellIndexed() && WellSized(g, kernel) && |store| == |g.tensors| && n <= |g.nodes|
    ensures |r| == |store|
  {
    if n == 0 then store else RunNode(g, kernel, RunPrivately(g, kernel, store, n - 1), n - 1)
  }

  ghost predicate AllFit(g: Graph, store: Store) {
    |store| == |g.tensors| && forall t :: g.IsTensor(t) ==> FitsTensor(g, t, store[t])
  }

  // ----- running the nodes in another order -----

  function RunOrder(g: Graph, kernel: Kernel, store: Store, order: seq<int>): (r: Store)
    requires g.WellIndexed() && WellSized(g, kernel) && |store| == |g.tensors|
    requires forall q :: 0 <= q < |order| ==> 0 <= order[q] < |g.nodes|
    ensures |r| == |store|
  {
    if order == [] then store
    else RunNode(g, kernel, RunOrder(g, kernel, store, order[..|order| - 1]), order[|order| - 1])
  }

  /** Node `i` changes tensor `t`. */
  predicate Touches(g: Graph, i: int, t: int)
    requires 0 <= i < |g.nodes|
  {
    g.Writes(i, t) || g.Scratches(i, t)
  }

  ghost predicate AgreeOnReads(g: Graph, i: int, a: Store, b: Store)
    requires 0 <= i < |g.nodes| && |a| == |b| == |g.tensors|
  {
    forall t :: g.IsTensor(t) && g.Reads(i, t) ==> a[t] == b[t]
  }

  lemma {:induction false} ScatterIsLocal(g: Graph, a: Store, b: Store, ids: seq<int>, values: seq<seq<byte>>, k: nat,
                                          t: int)
    requires |a| == |b| == |g.tensors| && |values| == |ids| && k <= |ids| && g.IsTensor(t)
    requires forall j :: 0 <= j < |ids| ==> g.IsTensorOrOptional(ids[j])
    ensures t in ids[..k] || a[t] == b[t] ==> Scatter(g, a, ids, values, k)[t] == Scatter(g, b, ids, values, k)[t]
    ensures t !in ids[..k] ==> Scatter(g, a, ids, values, k)[t] == a[t]
  {
    if k > 0 {
      ScatterIsLocal(g, a, b, ids, values, k - 1, t);
      assert ids[..k] == ids[..k - 1] + [ids[k - 1]];
    }
  }

  /** What a node leaves in the tensors it changes depends only on what it reads; it changes nothing else. */
  lemma RunNodeIsLocal(g: Graph, kernel: Kernel, a: Store, b: Store, i: nat, t: int)
    requires g.WellIndexed() && WellSized(g, kernel) && |a| == |b| == |g.tensors| && i < |g.nodes| && g.IsTensor(t)
    requires AgreeOnReads(g, i, a, b)
    ensures Touches(g, i, t) ==> RunNode(g, kernel, a, i)[t] == RunNode(g, kernel, b, i)[t]
    ensures !Touches(g, i, t) ==> RunNode(g, kernel, a, i)[t] == a[t]
  {
    var node := g.nodes[i];
    forall j | 0 <= j < |node.inputs|
      ensures Fetch(a, node.inputs[j]) == Fetch(b, node.inputs[j])
    {
      assert node.inputs[j] != OPTIONAL ==> g.Reads(i, node.inputs[j]);
    }
    assert Gather(g, a, node.inputs) == Gather(g, b, node.inputs);
    var result := kernel(i, Gather(g, a, node.inputs));
    var n, m := |node.temporaries|, |node.outputs|;
    ScatterIsLocal(g, a, b, node.temporaries, result.temporaries, n, t);
    ScatterIsLocal(g, Scatter(g, a, node.temporaries, result.temporaries, n),
        Scatter(g, b, node.temporaries, result.temporaries, n),
                   node.outputs, result.outputs, m, t);
    assert node.temporaries[..n] == node.temporaries && node.outputs[..m] == node.outputs;
  }

  /** Graphs in which the nodes communicate through the tensors they write once and read later. */
  ghost predicate Dataflow(g: Graph) {
    g.WellIndexed() && g.SingleProducer() && g.DependencyOrder() && g.PrivateTemporaries()
  }

  lemma NoTwoTouch(g: Graph, i: int, j: int, t: int)
    requires Dataflow(g) && 0 <= i < |g.nodes| && 0 <= j < |g.nodes| && Touches(g, i, t)
    ensures i != j ==> !Touches(g, j, t)
    ensures g.Reads(j, t) ==> g.Writes(i, t) && i < j
  {}

  /** After the first `n` nodes, running one of them again changes nothing. */
  lemma {:induction false} NodesSettle(g: Graph, kernel: Kernel, store: Store, n: nat, i: nat, t: int)
    requires Dataflow(g) && WellSized(g, kernel) && |store| == |g.tensors| && i < n <= |g.nodes| && g.IsTensor(t)
      && Touches(g, i, t)
    ensures var final := RunPrivately(g, kernel, store, n); final[t] == RunNode(g, kernel, final, i)[t]
  {
    var before, final := RunPrivately(g, kernel, store, n - 1), RunPrivately(g, kernel, store, n);
    assert final == RunNode(g, kernel, before, n - 1);
    hide RunNode;
    hide RunPrivately;
    hide WellSized;
    forall u | g.IsTensor(u) && g.Reads(i, u)
      ensures before[u] == final[u]
    {
      if Touches(g, n - 1, u) {
        NoTwoTouch(g, n - 1, i, u);
      }
      RunNodeIsLocal(g, kernel, before, before, n - 1, u);
    }
    RunNodeIsLocal(g, kernel, before, final, i, t);
    if i < n - 1 {
      NodesSettle(g, kernel, store, n - 1, i, t);
      NoTwoTouch(g, i, n - 1, t);
      RunNodeIsLocal(g, kernel, before, before, n - 1, t);
    }
  }

  lemma {:induction false} UntouchedStays(g: Graph, kernel: Kernel, store: Store, n: nat, t: int)
    requires g.WellIndexed() && WellSized(g, kernel) && |store| == |g.tensors| && n <= |g.nodes| && g.IsTensor(t)
    requires forall i :: 0 <= i < n ==> !Touches(g, i, t)
    ensures RunPrivately(g, kernel, store, n)[t] == store[t]
  {
    if n > 0 {
      UntouchedStays(g, kernel, store, n - 1, t);
      var before := RunPrivately(g, kernel, store, n - 1);
      RunNodeIsLocal(g, kernel, before, before, n - 1, t);
    }
  }

  /** Each node appears once, after the nodes that write what it reads. */
  ghost predicate Schedules(g: Graph, order: seq<int>) {
    && (forall q :: 0 <= q < |order| ==> 0 <= order[q] < |g.nodes|)
    && (forall q, r :: 0 <= q < r < |order| ==> order[q] != order[r])
    && (forall q, j, t ::
          0 <= q < |order| && 0 <= j < |g.nodes| && g.Reads(order[q], t) && g.Writes(j, t) ==> j in order[..q])
  }

  /** Part of the way through any schedule, the tensors changed so far already hold their final contents. */
  lemma {:induction false} PrefixIsFinal(g: Graph, kernel: Kernel, store: Store, order: seq<int>, q: nat, t: int)
    requires Dataflow(g) && WellSized(g, kernel) && |store| == |g.tensors| && Schedules(g, order) && q <= |order|
      && g.IsTensor(t)
    ensures (exists j :: j in order[..q] && Touches(g, j, t)) ==>
      RunOrder(g, kernel, store, order[..q])[t] == RunPrivately(g, kernel, store, |g.nodes|)[t]
    ensures (forall j :: j in order[..q] ==> !Touches(g, j, t)) ==>
      RunOrder(g, kernel, store, order[..q])[t] == store[t]
  {
    hide RunNode;
    hide WellSized;
    if q > 0 {
      var i := order[q - 1];
      var before, final := RunOrder(g, kernel, store, order[..q - 1]), RunPrivately(g, kernel, store, |g.nodes|);
      assert order[..q][..q - 1] == order[..q - 1] && order[..q] == order[..q - 1] + [i];
      PrefixIsFinal(g, kernel, store, order, q - 1, t);
      forall u | g.IsTensor(u) && g.Reads(i, u)
        ensures before[u] == final[u]
      {
        PrefixIsFinal(g, kernel, store, order, q - 1, u);
        if forall j :: 0 <= j < |g.nodes| ==> !Touches(g, j, u) {
          UntouchedStays(g, kernel, store, |g.nodes|, u);
        } else {
          var j :| 0 <= j < |g.nodes| && Touches(g, j, u);
          NoTwoTouch(g, j, i, u);
          assert j in order[..q - 1];
        }
      }
      RunNodeIsLocal(g, kernel, before, final, i, t);
      if Touches(g, i, t) {
        NodesSettle(g, kernel, store, |g.nodes|, i, t);
      }
    }
  }

  /** Every schedule of all nodes computes, in every tensor, what the original order computes. */
  lemma AnyScheduleComputesTheSame(g: Graph, kernel: Kernel, store: Store, order: seq<int>)
    requires Dataflow(g) && WellSized(g, kernel) && |store| == |g.tensors| && Schedules(g, order)
    requires forall i :: 0 <= i < |g.nodes| ==> i in order
    ensures RunOrder(g, kernel, store, order) == RunPrivately(g, kernel, store, |g.nodes|)
  {
    assert order[..|order|] == order;
    forall t | g.IsTensor(t)
      ensures RunOrder(g, kernel, store, order)[t] == RunPrivately(g, kernel, store, |g.nodes|)[t]
    {
      PrefixIsFinal(g, kernel, store, order, |order|, t);
      if forall j :: 0 <= j < |g.nodes| ==> !Touches(g, j, t) {
        UntouchedStays(g, kernel, store, |g.nodes|, t);
      }
    }
  }
}
