/** When operators that work in place leave the contents of other tensors alone: `IdentifyInPlaceTensors`.

  Tensors that share a buffer are run on a store in which only owners of buffers have contents. The guards for sharing
  look at the input and at the owner of its buffer, not at the other tensors in it, so sharing may change results; it
  changes none exactly when no node overwrites a buffer of which another tensor is still used. */
module InPlaceSharing {
  import opened Bytes
  import opened Graphs
  import opened GraphExecution
  import opened Lifetimes

  // ----- shared buffers -----

  function Owners(g: Graph, m: map<int, int>, ids: seq<int>): (r: seq<int>)
    requires forall j :: 0 <= j < |ids| ==> g.IsTensorOrOptional(ids[j])
    ensures |r| == |ids| && forall j :: 0 <= j < |r| ==> r[j] == Owner(g, m, ids[j]) && g.IsTensorOrOptional(r[j])
  {
    seq(|ids|, j requires 0 <= j < |ids| => Owner(g, m, ids[j]))
  }

  /** Runs node `i` where contents are kept by the owners of the buffers. */
  function RunNodeSharing(g: Graph, m: map<int, int>, kernel: Kernel, store: Store, i: nat): (r: Store)
    requires g.WellIndexed() && WellSized(g, kernel) && |store| == |g.tensors| && i < |g.nodes|
    ensures |r| == |store|
  {
    var node := g.nodes[i];
    var result := kernel(i, Gather(g, store, Owners(g, m, node.inputs)));
    var scratched := Scatter(g, store, node.temporaries, result.temporaries, |node.temporaries|);
    Scatter(g, scratched, Owners(g, m, node.outputs), result.outputs, |node.outputs|)
  }

  function RunSharing(g: Graph, m: map<int, int>, kernel: Kernel, store: Store, n: nat): (r: Store)
    requires g.WellIndexed() && WellSized(g, kernel) && |store| == |g.tensors| && n <= |g.nodes|
    ensures |r| == |store|
  {
    if n == 0 then store else RunNodeSharing(g, m, kernel, RunSharing(g, m, kernel, store, n - 1), n - 1)
  }

  // ----- what operators promise -----

  /** An operator that leaves data unmodified makes its first output its first input, and shares no other input. */
  predicate CopiesFirstInput(g: Graph)
    requires g.WellIndexed()
  {
    forall i :: 0 <= i < |g.nodes| && g.nodes[i].inPlace.dataUnmodified ==> CopyRegistration(g, g.nodes[i])
  }

  predicate CopyRegistration(g: Graph, node: Node) {
    && !node.inPlace.input1 && !node.inPlace.input2
    && (Forwards(g, node) ==> g.tensors[node.inputs[0]].bytes == g.tensors[node.outputs[0]].bytes)
  }

  /** The operator hands its first input on as its first output. */
  predicate Forwards(g: Graph, node: Node) {
    && node.inPlace.dataUnmodified && |node.inputs| > 0 && |node.outputs| > 0
    && g.IsTensor(node.inputs[0]) && g.IsTensor(node.outputs[0])
  }

  predicate ForwardsContents(g: Graph, node: Node, ins: seq<seq<byte>>) {
    Forwards(g, node) && |ins| == |node.inputs| && FitsTensor(g, node.outputs[0], ins[0])
  }

  ghost predicate Copies(g: Graph, kernel: Kernel) {
    forall i, ins :: 0 <= i < |g.nodes| && ForwardsContents(g, g.nodes[i], ins) ==>
      |kernel(i, ins).outputs| > 0 && kernel(i, ins).outputs[0] == ins[0]
  }

  /** Node `i` forwards to its output `k` contents that already are in the buffer of `k`. */
  predicate CopiesInPlace(g: Graph, m: map<int, int>, i: nat, k: int)
    requires i < |g.nodes|
  {
    var node := g.nodes[i];
    Forwards(g, node) && node.outputs[0] == k && Owner(g, m, node.inputs[0]) == Owner(g, m, k)
  }

  /** The promise as far as planning relies on it: a node that is run in place on its first input copies it. */
  ghost predicate CopiesShared(g: Graph, m: map<int, int>, kernel: Kernel) {
    forall i: nat, ins ::
      i < |g.nodes| && ForwardsContents(g, g.nodes[i], ins) && CopiesInPlace(g, m, i, g.nodes[i].outputs[0]) ==>
        |kernel(i, ins).outputs| > 0 && kernel(i, ins).outputs[0] == ins[0]
  }

  ghost predicate Admissible(g: Graph, kernel: Kernel, initial: Store) {
    WellSized(g, kernel) && Copies(g, kernel) && AllFit(g, initial)
  }

  // ----- the property and its condition -----

  /** `t` is used by node `j`, or by the caller once all nodes have run. */
  predicate UsedAt(g: Graph, j: nat, t: int) {
    g.IsTensor(t) && if j < |g.nodes| then g.Reads(j, t) else j == |g.nodes| && (t in g.outputs || g.Given(t))
  }

  /** Whatever is used has the contents it has when every tensor has memory of its own. */
  ghost predicate SameUse(g: Graph, m: map<int, int>, kernel: Kernel, initial: Store)
    requires g.WellIndexed() && WellSized(g, kernel) && |initial| == |g.tensors|
  {
    forall j: nat, t :: UsedAt(g, j, t) ==> SameAt(g, m, kernel, initial, j, t)
  }

  ghost predicate SameAt(g: Graph, m: map<int, int>, kernel: Kernel, initial: Store, j: nat, t: int)
    requires g.WellIndexed() && WellSized(g, kernel) && |initial| == |g.tensors| && UsedAt(g, j, t)
  {
    RunSharing(g, m, kernel, initial, j)[Owner(g, m, t)] == RunPrivately(g, kernel, initial, j)[t]
  }

  ghost predicate Transparent(g: Graph, m: map<int, int>)
    requires g.WellIndexed()
  {
    forall kernel, initial :: Admissible(g, kernel, initial) ==> SameUse(g, m, kernel, initial)
  }

  predicate WrittenFrom(g: Graph, t: int, i: nat) {
    exists q :: i <= q < |g.nodes| && g.Writes(q, t)
  }

  /** Node `i` puts new contents for `k` into a buffer that holds those of `s`. */
  predicate Overwrites(g: Graph, m: map<int, int>, i: nat, k: int, s: int) {
    && i < |g.nodes| && g.Writes(i, k) && !CopiesInPlace(g, m, i, k)
    && s != k && Owner(g, m, s) == Owner(g, m, k) && !WrittenFrom(g, s, i)
  }

  /** No node overwrites contents that are used later. */
  ghost predicate Undisturbed(g: Graph, m: map<int, int>) {
    forall i: nat, k, s, j: nat :: Overwrites(g, m, i, k, s) && UsedAt(g, j, s) ==> j <= i
  }

  // ----- where aliases come from -----

  lemma {:induction false} SharedInputPosition(g: Graph, refcounts: seq<int>, preserve: bool, i: int, from: int)
    returns (j: int)
    requires g.WellIndexed() && InPlaceHasOutput(g) && |refcounts| == |g.tensors|
    requires 0 <= i < |g.nodes| && |g.nodes[i].outputs| > 0 && !g.nodes[i].inPlace.IsNone()
    requires 0 <= from <= Min(MAX_SHARABLE_OP_INPUTS, |g.nodes[i].inputs|)
    requires SharedInputFrom(g, refcounts, preserve, i, from).Some?
    ensures 0 <= j < |g.nodes[i].inputs| && CanShareAt(g, refcounts, preserve, i, j)
    ensures g.nodes[i].inputs[j] == SharedInputFrom(g, refcounts, preserve, i, from).value
    decreases |g.nodes[i].inputs| - from
  {
    if CanShareAt(g, refcounts, preserve, i, from) {
      j := from;
    } else {
      j := SharedInputPosition(g, refcounts, preserve, i, from + 1);
    }
  }

  /** An alias was recorded by the node that writes it, as its first output, from a shareable input. */
  ghost predicate OriginAt(g: Graph, refcounts: seq<int>, preserve: bool, m: map<int, int>, t: int, p: int, j: int)
    requires g.WellIndexed() && InPlaceHasOutput(g) && |refcounts| == |g.tensors|
  {
    && t in m && 0 <= p < |g.nodes| && |g.nodes[p].outputs| > 0 && g.nodes[p].outputs[0] == t
    && !g.nodes[p].inPlace.IsNone() && 0 <= j < |g.nodes[p].inputs|
    && CanShareAt(g, refcounts, preserve, p, j) && m[t] == Shared(m, g.nodes[p].inputs[j])
  }

  lemma {:induction false} AliasOrigin(g: Graph, refcounts: seq<int>, preserve: bool, n: nat, t: int, p: int)
    returns (j: int)
    requires g.WellIndexed() && InPlaceHasOutput(g) && |refcounts| == |g.tensors| && n <= |g.nodes|
    requires g.SingleProducer() && g.DependencyOrder()
    requires t in InPlaceMap(g, refcounts, preserve, n) && 0 <= p < |g.nodes| && g.Writes(p, t)
    ensures p < n && OriginAt(g, refcounts, preserve, InPlaceMap(g, refcounts, preserve, n), t, p, j)
  {
    var m, r := InPlaceMap(g, refcounts, preserve, n - 1), InPlaceMap(g, refcounts, preserve, n);
    var node := g.nodes[n - 1];
    if t in m {
      j := AliasOrigin(g, refcounts, preserve, n - 1, t, p);
      var x := g.nodes[p].inputs[j];
      assert g.Reads(p, x);
      if r != m {
        assert g.Writes(n - 1, node.outputs[0]);
        assert t != node.outputs[0] && x != node.outputs[0];
      }
    } else {
      assert g.Writes(n - 1, node.outputs[0]);
      j := SharedInputPosition(g, refcounts, preserve, n - 1, 0);
      assert g.Reads(p, node.inputs[j]);
    }
  }

  lemma {:induction false} OwnersAreRead(g: Graph, refcounts: seq<int>, preserve: bool, n: nat, t: int)
    requires g.WellIndexed() && InPlaceHasOutput(g) && |refcounts| == |g.tensors| && n <= |g.nodes|
    requires t in InPlaceMap(g, refcounts, preserve, n)
    ensures exists p :: 0 <= p < |g.nodes| && g.Reads(p, InPlaceMap(g, refcounts, preserve, n)[t])
  {
    var m, r := InPlaceMap(g, refcounts, preserve, n - 1), InPlaceMap(g, refcounts, preserve, n);
    if t in m && r[t] == m[t] {
      OwnersAreRead(g, refcounts, preserve, n - 1, t);
    } else {
      var j := SharedInputPosition(g, refcounts, preserve, n - 1, 0);
      var x := g.nodes[n - 1].inputs[j];
      assert g.Reads(n - 1, x);
      if x in m {
        OwnersAreRead(g, refcounts, preserve, n - 1, x);
      }
    }
  }

  lemma AliasIsWritten(g: Graph, preserve: bool, t: int)
    requires Runnable(g) && t in Aliases(g, preserve)
    ensures exists p: nat :: p < |g.nodes| && g.Writes(p, t) && WrittenBefore(g, Aliases(g, preserve)[t], p)
  {
    InPlaceMapSound(g, ReferenceCounts(g), preserve, |g.nodes|);
    var p :| p < |g.nodes| && AliasedAt(g, Aliases(g, preserve), t, p);
  }

  /** Data left unmodified is handed on in its own buffer. */
  lemma UnmodifiedIsCopied(g: Graph, preserve: bool, i: nat, k: int)
    requires Runnable(g) && CopiesFirstInput(g) && i < |g.nodes| && g.Writes(i, k)
    requires KeepsAlias(g, Aliases(g, preserve), k)
    ensures g.nodes[i].inPlace.dataUnmodified ==> CopiesInPlace(g, Aliases(g, preserve), i, k)
  {
    var j := AliasOrigin(g, ReferenceCounts(g), preserve, |g.nodes|, k, i);
  }

  /** A node that puts new contents into a buffer others are in is registered as changing its data. */
  lemma OverwritingChanges(g: Graph, preserve: bool, i: nat, k: int, s: int)
    requires Runnable(g) && CopiesFirstInput(g) && Overwrites(g, Aliases(g, preserve), i, k, s)
    ensures !g.nodes[i].inPlace.dataUnmodified
  {
    if s in Aliases(g, preserve) {
      AliasIsWritten(g, preserve, s);
    }
    UnmodifiedIsCopied(g, preserve, i, k);
  }

  /** A node has at most one output in each buffer. */
  lemma OneOutputInBuffer(g: Graph, preserve: bool, i: nat, k: int, l: int)
    requires Runnable(g) && i < |g.nodes| && g.Writes(i, k) && g.Writes(i, l)
    requires Owner(g, Aliases(g, preserve), k) == Owner(g, Aliases(g, preserve), l)
    ensures k == l
  {
    var m, refcounts := Aliases(g, preserve), ReferenceCounts(g);
    InPlaceMapSound(g, refcounts, preserve, |g.nodes|);
    if k != l {
      var t := if k in m then k else l;
      assert t in m;
      var p :| p < |g.nodes| && AliasedAt(g, m, t, p);
      assert p == i && WrittenBefore(g, m[t], i);
      assert k in m && l in m;
      var a := AliasOrigin(g, refcounts, preserve, |g.nodes|, k, i);
      var b := AliasOrigin(g, refcounts, preserve, |g.nodes|, l, i);
    }
  }

  /** No temporary is where a tensor that is used has its contents. */
  lemma OwnerIsNoTemporary(g: Graph, preserve: bool, i: nat, j: nat, t: int)
    requires Runnable(g) && i < |g.nodes| && UsedAt(g, j, t)
    ensures !g.Scratches(i, Owner(g, Aliases(g, preserve), t)) && !g.Scratches(i, t)
  {
    var m := Aliases(g, preserve);
    if t in m {
      OwnersAreRead(g, ReferenceCounts(g), preserve, |g.nodes|, t);
    }
  }

  // ----- what a node leaves behind -----

  lemma {:induction false} ScatteredLast(g: Graph, store: Store, ids: seq<int>, values: seq<seq<byte>>, k: nat, j: nat)
    requires |store| == |g.tensors| && |values| == |ids| && j < k <= |ids|
    requires forall l :: 0 <= l < |ids| ==> g.IsTensorOrOptional(ids[l])
    requires ids[j] != OPTIONAL && forall l :: j < l < k ==> ids[l] != ids[j]
    ensures Scatter(g, store, ids, values, k)[ids[j]] == values[j]
  {
    if j < k - 1 {
      ScatteredLast(g, store, ids, values, k - 1, j);
    }
  }

  lemma {:induction false} ScatterFits(g: Graph, store: Store, ids: seq<int>, values: seq<seq<byte>>, k: nat)
    requires AllFit(g, store) && Fits(g, ids, values) && k <= |ids|
    requires forall l :: 0 <= l < |ids| ==> g.IsTensorOrOptional(ids[l])
    ensures AllFit(g, Scatter(g, store, ids, values, k))
  {
    if k > 0 {
      ScatterFits(g, store, ids, values, k - 1);
    }
  }

  lemma {:induction false} PrivateFits(g: Graph, kernel: Kernel, store: Store, n: nat)
    requires g.WellIndexed() && WellSized(g, kernel) && AllFit(g, store) && n <= |g.nodes|
    ensures AllFit(g, RunPrivately(g, kernel, store, n))
  {
    if n > 0 {
      PrivateFits(g, kernel, store, n - 1);
      var before, node := RunPrivately(g, kernel, store, n - 1), g.nodes[n - 1];
      var result := kernel(n - 1, Gather(g, before, node.inputs));
      ScatterFits(g, before, node.temporaries, result.temporaries, |node.temporaries|);
      ScatterFits(g, Scatter(g, before, node.temporaries, result.temporaries, |node.temporaries|), node.outputs,
                  result.outputs, |node.outputs|);
    }
  }

  /** A node leaves in the buffer of its output what it computes for the output. */
  lemma OutputIsLeft(g: Graph, preserve: bool, kernel: Kernel, store: Store, i: nat, j: nat)
    requires Runnable(g) && WellSized(g, kernel) && |store| == |g.tensors| && i < |g.nodes| && j < |g.nodes[i].outputs|
    requires g.nodes[i].outputs[j] != OPTIONAL
    ensures var m, node := Aliases(g, preserve), g.nodes[i];
      RunNodeSharing(g, m, kernel, store, i)[Owner(g, m, node.outputs[j])]
        == kernel(i, Gather(g, store, Owners(g, m, node.inputs))).outputs[j]
  {
    var m, node := Aliases(g, preserve), g.nodes[i];
    var result := kernel(i, Gather(g, store, Owners(g, m, node.inputs)));
    var scratched := Scatter(g, store, node.temporaries, result.temporaries, |node.temporaries|);
    var outs := Owners(g, m, node.outputs);
    forall l | j < l < |outs|
      ensures outs[l] != outs[j]
    {
      if outs[l] == outs[j] {
        if node.outputs[l] != OPTIONAL {
          assert g.Writes(i, node.outputs[l]) && g.Writes(i, node.outputs[j]);
          OneOutputInBuffer(g, preserve, i, node.outputs[l], node.outputs[j]);
        }
      }
    }
    ScatteredLast(g, scratched, outs, result.outputs, |outs|, j);
  }

  /** A buffer that no output of a node is in keeps its contents. */
  lemma OthersStay(g: Graph, preserve: bool, kernel: Kernel, store: Store, i: nat, r: int)
    requires Runnable(g) && WellSized(g, kernel) && |store| == |g.tensors| && i < |g.nodes| && g.IsTensor(r)
    requires !g.Scratches(i, r) && forall k :: g.Writes(i, k) ==> Owner(g, Aliases(g, preserve), k) != r
    ensures RunNodeSharing(g, Aliases(g, preserve), kernel, store, i)[r] == store[r]
  {
    var m, node := Aliases(g, preserve), g.nodes[i];
    var result := kernel(i, Gather(g, store, Owners(g, m, node.inputs)));
    var scratched := Scatter(g, store, node.temporaries, result.temporaries, |node.temporaries|);
    var outs := Owners(g, m, node.outputs);
    assert node.temporaries[..|node.temporaries|] == node.temporaries && outs[..|outs|] == outs;
    ScatterIsLocal(g, store, store, node.temporaries, result.temporaries, |node.temporaries|, r);
    forall l | 0 <= l < |outs|
      ensures outs[l] != r
    {
      assert node.outputs[l] != OPTIONAL ==> g.Writes(i, node.outputs[l]);
    }
    ScatterIsLocal(g, scratched, scratched, outs, result.outputs, |outs|, r);
  }

  // ----- undisturbed sharing changes nothing -----

  /** All that node `q` or a later one uses, and that has been written by then, is as on private storage. */
  ghost predicate AgreeFrom(g: Graph, m: map<int, int>, shared: Store, private: Store, q: nat)
    requires |shared| == |private| == |g.tensors|
  {
    forall j: nat, t :: q <= j && UsedAt(g, j, t) && !WrittenFrom(g, t, q) ==> shared[Owner(g, m, t)] == private[t]
  }

  lemma SameInputs(g: Graph, m: map<int, int>, shared: Store, private: Store, q: nat)
    requires Runnable(g) && |shared| == |private| == |g.tensors| && q < |g.nodes| && AgreeFrom(g, m, shared, private, q)
    ensures Gather(g, shared, Owners(g, m, g.nodes[q].inputs)) == Gather(g, private, g.nodes[q].inputs)
  {
    var ids := g.nodes[q].inputs;
    forall j | 0 <= j < |ids|
      ensures Fetch(shared, Owners(g, m, ids)[j]) == Fetch(private, ids[j])
    {
      if ids[j] != OPTIONAL {
        assert UsedAt(g, q, ids[j]) && !WrittenFrom(g, ids[j], q);
      }
    }
  }

  lemma OutputAgrees(g: Graph, preserve: bool, kernel: Kernel, shared: Store, private: Store, q: nat, t: int)
    requires Runnable(g) && WellSized(g, kernel) && |shared| == |private| == |g.tensors| && q < |g.nodes|
    requires AgreeFrom(g, Aliases(g, preserve), shared, private, q) && g.Writes(q, t)
    ensures RunNodeSharing(g, Aliases(g, preserve), kernel, shared, q)[Owner(g, Aliases(g, preserve), t)]
      == RunNode(g, kernel, private, q)[t]
  {
    var m, node := Aliases(g, preserve), g.nodes[q];
    var j :| 0 <= j < |node.outputs| && node.outputs[j] == t;
    SameInputs(g, m, shared, private, q);
    OutputIsLeft(g, preserve, kernel, shared, q, j);
    var result := kernel(q, Gather(g, private, node.inputs));
    ScatteredLast(g, Scatter(g, private, node.temporaries, result.temporaries, |node.temporaries|), node.outputs,
                  result.outputs, |node.outputs|, j);
  }

  /** The buffer of a tensor that node `q` does not write is left as it was. */
  lemma UsedStays(g: Graph, preserve: bool, kernel: Kernel, shared: Store, private: Store, q: nat, t: int, j: nat)
    requires Runnable(g) && WellSized(g, kernel) && CopiesShared(g, Aliases(g, preserve), kernel) && AllFit(g, private)
    requires |shared| == |g.tensors| && q < |g.nodes| && AgreeFrom(g, Aliases(g, preserve), shared, private, q)
    requires Undisturbed(g, Aliases(g, preserve)) && q < j && UsedAt(g, j, t) && !WrittenFrom(g, t, q)
    ensures RunNodeSharing(g, Aliases(g, preserve), kernel, shared, q)[Owner(g, Aliases(g, preserve), t)]
      == shared[Owner(g, Aliases(g, preserve), t)]
  {
    var m, node := Aliases(g, preserve), g.nodes[q];
    OwnerIsNoTemporary(g, preserve, q, j, t);
    if k :| g.Writes(q, k) && Owner(g, m, k) == Owner(g, m, t) {
      assert k != t;
      assert CopiesInPlace(g, m, q, k) || Overwrites(g, m, q, k, t);
      var x := node.inputs[0];
      OutputIsLeft(g, preserve, kernel, shared, q, 0);
      SameInputs(g, m, shared, private, q);
      var ins := Gather(g, private, node.inputs);
      assert UsedAt(g, q, x) && !WrittenFrom(g, x, q);
      assert ins[0] == private[x] == shared[Owner(g, m, x)];
      InPlaceSizes(g, m, k, t);
      InPlaceSizes(g, m, k, x);
      assert ForwardsContents(g, node, ins);
    } else {
      OthersStay(g, preserve, kernel, shared, q, Owner(g, m, t));
    }
  }

  /** Two tensors in one buffer have one size. */
  lemma InPlaceSizes(g: Graph, m: map<int, int>, k: int, t: int)
    requires g.IsTensor(k) && g.IsTensor(t) && Owner(g, m, k) == Owner(g, m, t)
    ensures k == t || (g.tensors[k] == g.tensors[t] && g.tensors[k].InArena() && g.tensors[k].bytes > 0)
  {}

  lemma NodeAgrees(g: Graph, preserve: bool, kernel: Kernel, shared: Store, private: Store, q: nat)
    requires Runnable(g) && WellSized(g, kernel) && CopiesShared(g, Aliases(g, preserve), kernel) && AllFit(g, private)
    requires |shared| == |g.tensors| && q < |g.nodes| && AgreeFrom(g, Aliases(g, preserve), shared, private, q)
    requires Undisturbed(g, Aliases(g, preserve))
    ensures AgreeFrom(g, Aliases(g, preserve), RunNodeSharing(g, Aliases(g, preserve), kernel, shared, q),
                      RunNode(g, kernel, private, q), q + 1)
  {
    var m := Aliases(g, preserve);
    forall j: nat, t | q + 1 <= j && UsedAt(g, j, t) && !WrittenFrom(g, t, q + 1)
      ensures RunNodeSharing(g, m, kernel, shared, q)[Owner(g, m, t)] == RunNode(g, kernel, private, q)[t]
    {
      TensorAgrees(g, preserve, kernel, shared, private, q, t, j);
    }
  }

  lemma TensorAgrees(g: Graph, preserve: bool, kernel: Kernel, shared: Store, private: Store, q: nat, t: int, j: nat)
    requires Runnable(g) && WellSized(g, kernel) && CopiesShared(g, Aliases(g, preserve), kernel) && AllFit(g, private)
    requires |shared| == |g.tensors| && q < |g.nodes| && AgreeFrom(g, Aliases(g, preserve), shared, private, q)
    requires Undisturbed(g, Aliases(g, preserve)) && q < j && UsedAt(g, j, t) && !WrittenFrom(g, t, q + 1)
    ensures RunNodeSharing(g, Aliases(g, preserve), kernel, shared, q)[Owner(g, Aliases(g, preserve), t)]
      == RunNode(g, kernel, private, q)[t]
  {
    if g.Writes(q, t) {
      OutputAgrees(g, preserve, kernel, shared, private, q, t);
    } else {
      assert !WrittenFrom(g, t, q);
      UsedStays(g, preserve, kernel, shared, private, q, t, j);
      OwnerIsNoTemporary(g, preserve, q, j, t);
      RunNodeIsLocal(g, kernel, private, private, q, t);
    }
  }

  lemma {:induction false} UndisturbedAgrees(g: Graph, preserve: bool, kernel: Kernel, initial: Store, q: nat)
    requires Runnable(g) && WellSized(g, kernel) && AllFit(g, initial) && q <= |g.nodes|
    requires CopiesShared(g, Aliases(g, preserve), kernel) && Undisturbed(g, Aliases(g, preserve))
    ensures var m := Aliases(g, preserve);
      AgreeFrom(g, m, RunSharing(g, m, kernel, initial, q), RunPrivately(g, kernel, initial, q), q)
  {
    hide InPlaceMap;
    hide ReferenceCounts;
    hide RunNode;
    hide Graph.SingleProducer;
    hide Graph.DependencyOrder;
    hide Graph.PrivateTemporaries;
    hide Complete;
    hide RunNodeSharing;
    hide AgreeFrom;
    hide Undisturbed;
    var m := Aliases(g, preserve);
    if q == 0 {
      InitialAgrees(g, preserve, initial);
    } else {
      UndisturbedAgrees(g, preserve, kernel, initial, q - 1);
      PrivateFits(g, kernel, initial, q - 1);
      NodeAgrees(g, preserve, kernel, RunSharing(g, m, kernel, initial, q - 1),
                 RunPrivately(g, kernel, initial, q - 1), q - 1);
    }
  }

  /** What no node writes owns its buffer. */
  lemma InitialAgrees(g: Graph, preserve: bool, initial: Store)
    requires Runnable(g) && |initial| == |g.tensors|
    ensures AgreeFrom(g, Aliases(g, preserve), initial, initial, 0)
  {
    var m := Aliases(g, preserve);
    InPlaceMapSound(g, ReferenceCounts(g), preserve, |g.nodes|);
    forall t | t in m
      ensures WrittenFrom(g, t, 0)
    {
      var p :| p < |g.nodes| && AliasedAt(g, m, t, p);
    }
  }

  lemma UndisturbedIsTransparent(g: Graph, preserve: bool)
    requires Runnable(g) && Undisturbed(g, Aliases(g, preserve))
    ensures Transparent(g, Aliases(g, preserve))
  {
    var m := Aliases(g, preserve);
    forall kernel, initial | Admissible(g, kernel, initial)
      ensures SameUse(g, m, kernel, initial)
    {
      forall j: nat, t | UsedAt(g, j, t)
        ensures SameAt(g, m, kernel, initial, j, t)
      {
        UndisturbedAgrees(g, preserve, kernel, initial, j);
        assert !WrittenFrom(g, t, j);
      }
    }
  }

  // ----- disturbed sharing shows -----

  function Filled(g: Graph, t: int, value: byte): (r: seq<byte>)
    ensures g.IsTensor(t) ==> FitsTensor(g, t, r)
  {
    if g.IsTensor(t) then seq(g.tensors[t].bytes, _ => value) else []
  }

  function Zeros(g: Graph): (r: Store)
    ensures AllFit(g, r)
  {
    seq(|g.tensors|, t => Filled(g, t, 0))
  }

  function RevealedOutput(g: Graph, target: int, i: int, ins: seq<seq<byte>>, j: nat): (r: seq<byte>)
    requires 0 <= i < |g.nodes| && j < |g.nodes[i].outputs|
    ensures g.IsTensor(g.nodes[i].outputs[j]) ==> FitsTensor(g, g.nodes[i].outputs[j], r)
  {
    if j == 0 && ForwardsContents(g, g.nodes[i], ins) then ins[0]
    else Filled(g, g.nodes[i].outputs[j], if i == target then 1 else 0)
  }

  /** Operators that forward what they must; the others write zeros, except that node `target` writes ones. */
  function Revealing(g: Graph, target: int): Kernel {
    (i, ins) =>
      if 0 <= i < |g.nodes| then
        KernelResult(seq(|g.nodes[i].outputs|,
                         j requires 0 <= j < |g.nodes[i].outputs| => RevealedOutput(g, target, i, ins, j)),
                     seq(|g.nodes[i].temporaries|,
                         j requires 0 <= j < |g.nodes[i].temporaries| => Filled(g, g.nodes[i].temporaries[j], 0)))
      else KernelResult([], [])
  }

  lemma RevealingIsAdmissible(g: Graph, target: int)
    ensures Admissible(g, Revealing(g, target), Zeros(g))
  {}

  lemma {:induction false} ScatterZeros(g: Graph, store: Store, ids: seq<int>, values: seq<seq<byte>>, k: nat)
    requires store == Zeros(g) && |values| == |ids| && k <= |ids|
    requires forall l :: 0 <= l < |ids| ==> g.IsTensorOrOptional(ids[l])
    requires forall l :: 0 <= l < |ids| ==> values[l] == Filled(g, ids[l], 0)
    ensures Scatter(g, store, ids, values, k) == store
  {
    if k > 0 {
      ScatterZeros(g, store, ids, values, k - 1);
    }
  }

  lemma ZerosAreForwarded(g: Graph, target: int, q: nat)
    requires g.WellIndexed() && CopiesFirstInput(g) && q < target && q < |g.nodes|
    ensures var result := Revealing(g, target)(q, Gather(g, Zeros(g), g.nodes[q].inputs));
      forall j :: 0 <= j < |g.nodes[q].outputs| ==> result.outputs[j] == Filled(g, g.nodes[q].outputs[j], 0)
  {
    var node := g.nodes[q];
    var ins := Gather(g, Zeros(g), node.inputs);
    assert ForwardsContents(g, node, ins) ==> CopyRegistration(g, node) && ins[0] == Filled(g, node.inputs[0], 0);
  }

  lemma ZerosStay(g: Graph, target: int, q: nat)
    requires g.WellIndexed() && CopiesFirstInput(g) && WellSized(g, Revealing(g, target)) && q < target && q < |g.nodes|
    ensures RunNode(g, Revealing(g, target), Zeros(g), q) == Zeros(g)
  {
    ZerosAreForwarded(g, target, q);
    var node := g.nodes[q];
    var result := Revealing(g, target)(q, Gather(g, Zeros(g), node.inputs));
    ScatterZeros(g, Zeros(g), node.temporaries, result.temporaries, |node.temporaries|);
    ScatterZeros(g, Zeros(g), node.outputs, result.outputs, |node.outputs|);
  }

  /** Until node `target` runs, everything is zero. */
  lemma {:induction false} ZerosBefore(g: Graph, target: int, q: nat)
    requires Runnable(g) && CopiesFirstInput(g) && q <= target && q <= |g.nodes|
    ensures WellSized(g, Revealing(g, target)) && RunPrivately(g, Revealing(g, target), Zeros(g), q) == Zeros(g)
  {
    RevealingIsAdmissible(g, target);
    hide Graph.SingleProducer;
    hide Graph.DependencyOrder;
    hide Graph.PrivateTemporaries;
    hide Complete;
    hide Copies;
    hide AllFit;
    hide Filled;
    hide Zeros;
    hide Revealing;
    hide RunNode;
    hide CopiesFirstInput;
    hide Graph.WellIndexed;
    if q > 0 {
      ZerosBefore(g, target, q - 1);
      ZerosStay(g, target, q - 1);
    }
  }

  /** A tensor that is used and not written from node `target` on stays zero on private storage. */
  lemma {:induction false} StaysZero(g: Graph, target: nat, q: nat, j: nat, t: int)
    requires Runnable(g) && CopiesFirstInput(g) && target <= q <= |g.nodes| && UsedAt(g, j, t)
      && !WrittenFrom(g, t, target)
    ensures WellSized(g, Revealing(g, target))
    ensures RunPrivately(g, Revealing(g, target), Zeros(g), q)[t] == Filled(g, t, 0)
  {
    hide CopiesFirstInput;
    hide Revealing;
    hide RunNode;
    hide Complete;
    RevealingIsAdmissible(g, target);
    if q == target {
      ZerosBefore(g, target, q);
    } else {
      StaysZero(g, target, q - 1, j, t);
      var before := RunPrivately(g, Revealing(g, target), Zeros(g), q - 1);
      RunNodeIsLocal(g, Revealing(g, target), before, before, q - 1, t);
    }
  }

  /** Nodes after `i` and before `j` write to the buffer `r` only what it already holds. */
  ghost predicate OnlyCopied(g: Graph, m: map<int, int>, r: int, i: nat, j: nat) {
    forall q: nat, k :: i < q < j && q < |g.nodes| && g.Writes(q, k) && Owner(g, m, k) == r ==>
      CopiesInPlace(g, m, q, k)
  }

  lemma OnlyCopiedBefore(g: Graph, m: map<int, int>, r: int, i: nat, j: nat)
    requires OnlyCopied(g, m, r, i, j) && j > 0
    ensures OnlyCopied(g, m, r, i, j - 1)
  {}

  lemma OnesAreForwarded(g: Graph, preserve: bool, target: nat, store: Store, q: nat, k: int, r: int)
    requires Runnable(g) && CopiesFirstInput(g) && |store| == |g.tensors| && q < |g.nodes| && g.Writes(q, k)
    requires Owner(g, Aliases(g, preserve), k) == r && g.IsTensor(r) && CopiesInPlace(g, Aliases(g, preserve), q, k)
    requires store[r] == Filled(g, r, 1)
    ensures WellSized(g, Revealing(g, target))
    ensures RunNodeSharing(g, Aliases(g, preserve), Revealing(g, target), store, q)[r] == store[r]
  {
    var m, node := Aliases(g, preserve), g.nodes[q];
    RevealingIsAdmissible(g, target);
    OutputIsLeft(g, preserve, Revealing(g, target), store, q, 0);
    var ins := Gather(g, store, Owners(g, m, node.inputs));
    assert ins[0] == store[r];
    assert FitsTensor(g, k, store[r]);
    assert ForwardsContents(g, node, ins);
  }

  lemma OnesAreWritten(g: Graph, preserve: bool, target: nat, store: Store, k: int, r: int)
    requires Runnable(g) && |store| == |g.tensors| && target < |g.nodes| && g.Writes(target, k)
    requires Owner(g, Aliases(g, preserve), k) == r && !g.nodes[target].inPlace.dataUnmodified
    ensures WellSized(g, Revealing(g, target))
    ensures RunNodeSharing(g, Aliases(g, preserve), Revealing(g, target), store, target)[r] == Filled(g, r, 1)
  {
    RevealingIsAdmissible(g, target);
    var j :| 0 <= j < |g.nodes[target].outputs| && g.nodes[target].outputs[j] == k;
    OutputIsLeft(g, preserve, Revealing(g, target), store, target, j);
  }

  lemma OnesStayStep(g: Graph, preserve: bool, target: nat, store: Store, r: int, q: nat)
    requires Runnable(g) && CopiesFirstInput(g) && |store| == |g.tensors| && target < q < |g.nodes| && g.IsTensor(r)
    requires OnlyCopied(g, Aliases(g, preserve), r, target, q + 1) && !g.Scratches(q, r) && store[r] == Filled(g, r, 1)
    ensures WellSized(g, Revealing(g, target))
    ensures RunNodeSharing(g, Aliases(g, preserve), Revealing(g, target), store, q)[r] == Filled(g, r, 1)
  {
    RevealingIsAdmissible(g, target);
    hide Revealing;
    hide RunNodeSharing;
    hide Filled;
    hide CopiesInPlace;
    if l :| g.Writes(q, l) && Owner(g, Aliases(g, preserve), l) == r {
      OnesAreForwarded(g, preserve, target, store, q, l, r);
    } else {
      OthersStay(g, preserve, Revealing(g, target), store, q, r);
    }
  }

  /** The ones that node `target` writes stay in the buffer as long as nothing but copies is written there. */
  lemma {:induction false} OnesStay(g: Graph, preserve: bool, target: nat, k: int, r: int, q: nat)
    requires Runnable(g) && CopiesFirstInput(g) && target < q <= |g.nodes| && g.Writes(target, k)
    requires Owner(g, Aliases(g, preserve), k) == r && g.IsTensor(r) && !g.nodes[target].inPlace.dataUnmodified
    requires OnlyCopied(g, Aliases(g, preserve), r, target, q) && forall i: nat :: i < |g.nodes| ==> !g.Scratches(i, r)
    ensures WellSized(g, Revealing(g, target))
    ensures RunSharing(g, Aliases(g, preserve), Revealing(g, target), Zeros(g), q)[r] == Filled(g, r, 1)
  {
    hide Revealing;
    hide RunNodeSharing;
    hide Owner;
    hide OnlyCopied;
    hide CopiesFirstInput;
    hide Filled;
    hide Copies;
    hide InPlaceMap;
    RevealingIsAdmissible(g, target);
    OnlyCopiedBefore(g, Aliases(g, preserve), r, target, q);
    RunnableIsIndexed(g);
    assert InPlaceHasOutput(g);
    hide Runnable;
    hide Graph.WellIndexed;
    hide InPlaceHasOutput;
    hide WellSized;
    hide AllFit;
    var before := RunSharing(g, Aliases(g, preserve), Revealing(g, target), Zeros(g), q - 1);
    if q - 1 == target {
      OnesAreWritten(g, preserve, target, before, k, r);
    } else {
      OnesStay(g, preserve, target, k, r, q - 1);
      OnesStayStep(g, preserve, target, before, r, q - 1);
    }
  }

  /** If contents are overwritten before they are used, some operators make the use see it. */
  lemma {:induction false} DisturbanceShows(g: Graph, preserve: bool, i: nat, k: int, s: int, j: nat)
    requires Runnable(g) && CopiesFirstInput(g)
    requires Overwrites(g, Aliases(g, preserve), i, k, s) && UsedAt(g, j, s) && i < j
    ensures !Transparent(g, Aliases(g, preserve))
    decreases j - i
  {
    var m := Aliases(g, preserve);
    var r := Owner(g, m, s);
    if q: nat, l :| i < q < j && q < |g.nodes| && g.Writes(q, l) && Owner(g, m, l) == r && !CopiesInPlace(g, m, q, l) {
      assert !WrittenFrom(g, s, q);
      DisturbanceShows(g, preserve, q, l, s, j);
    } else {
      OverwritingChanges(g, preserve, i, k, s);
      forall q: nat | q < |g.nodes|
        ensures !g.Scratches(q, r)
      {
        OwnerIsNoTemporary(g, preserve, q, j, s);
      }
      OnesStay(g, preserve, i, k, r, j);
      StaysZero(g, i, j, j, s);
      RevealingIsAdmissible(g, i);
      assert Filled(g, r, 1)[0] != Filled(g, s, 0)[0];
      assert !SameAt(g, m, Revealing(g, i), Zeros(g), j, s);
    }
  }

  /** Sharing buffers changes no result, whatever the operators compute, exactly if no contents are overwritten that
      are used later. */
  lemma TransparentIffUndisturbed(g: Graph, preserve: bool)
    requires Runnable(g) && CopiesFirstInput(g)
    ensures Transparent(g, Aliases(g, preserve)) <==> Undisturbed(g, Aliases(g, preserve))
  {
    var m := Aliases(g, preserve);
    if Undisturbed(g, m) {
      UndisturbedIsTransparent(g, preserve);
    } else {
      var i: nat, k, s, j: nat :| Overwrites(g, m, i, k, s) && UsedAt(g, j, s) && i < j;
      DisturbanceShows(g, preserve, i, k, s, j);
    }
  }

  // ----- a graph whose results sharing changes -----

  const NO_SHARING := InPlace(false, false, false, false, false)
  const RESHAPE := InPlace(true, false, true, false, false)
  const CHANGE := InPlace(false, false, true, false, false)

  /** Two reshapes in a row, an operator that changes the second result in place into a tensor of arena `kind`, and a
      use of the first one. */
  function Chain(kind: AllocationType): Graph {
    var t := Tensor(8, ArenaRw);
    Graph([t, t, t, Tensor(8, kind), t],
          [Node([], [0], [], NO_SHARING, false), Node([0], [1], [], RESHAPE, false), Node([1], [2], [], RESHAPE, false),
           Node([2], [3], [], CHANGE, false), Node([1, 3], [4], [], NO_SHARING, false)], [], [4], [])
  }

  lemma ChainUses(kind: AllocationType, t: int)
    ensures UsesFrom(Chain(kind), map[], 0, 0, t)
      == if t == 1 then 2 else if t == 0 || t == 2 || t == 3 then 1 else 0
  {
    var g := Chain(kind);
    assert UsesFrom(g, map[], 4, 2, t) == UsesFrom(g, map[], 5, 0, t) == 0;
    assert UsesFrom(g, map[], 4, 1, t) == if t == 3 then 1 else 0;
    assert UsesFrom(g, map[], 3, 1, t) == UsesFrom(g, map[], 4, 0, t) == if t == 1 || t == 3 then 1 else 0;
    assert UsesFrom(g, map[], 2, 1, t) == UsesFrom(g, map[], 3, 0, t) == if 1 <= t <= 3 then 1 else 0;
    assert UsesFrom(g, map[], 1, 1, t) == UsesFrom(g, map[], 2, 0, t)
        == if t == 1 then 2 else if t == 2 || t == 3 then 1 else 0;
  }

  lemma ChainPins(kind: AllocationType, t: int)
    ensures Pins(Chain(kind), t) == if t == 4 then 1 else 0
  {
    assert Occurrences([4], t) == Occurrences([], t) + if t == 4 then 1 else 0;
  }

  lemma ChainCounts(kind: AllocationType)
    ensures ReferenceCounts(Chain(kind)) == [1, 2, 1, 1, 1]
  {
    forall t | 0 <= t < 5
      ensures Pins(Chain(kind), t) + UsesFrom(Chain(kind), map[], 0, 0, t) == [1, 2, 1, 1, 1][t]
    {
      hide UsesFrom;
      hide Pins;
      ChainUses(kind, t);
      ChainPins(kind, t);
    }
    hide UsesFrom;
    hide Pins;
    assert |Chain(kind).tensors| == 5;
  }

  lemma ChainIsIndexed(kind: AllocationType)
    ensures Chain(kind).WellIndexed() && InPlaceHasOutput(Chain(kind))
  {}

  lemma ChainShares(kind: AllocationType, i: nat)
    requires kind == ArenaRw || kind == ArenaRwPersistent
    requires 0 < i < 4
    ensures Chain(kind).WellIndexed() && InPlaceHasOutput(Chain(kind)) && !Chain(kind).nodes[i].inPlace.IsNone()
    ensures SharedInputFrom(Chain(kind), [1, 2, 1, 1, 1], false, i, 0) == Some(i - 1)
  {
    ChainIsIndexed(kind);
    hide Graph.WellIndexed;
    hide InPlaceHasOutput;
    assert CanShareAt(Chain(kind), [1, 2, 1, 1, 1], false, i, 0);
  }

  lemma ChainStep(kind: AllocationType, m: map<int, int>, i: nat)
    requires kind == ArenaRw || kind == ArenaRwPersistent
    requires 0 < i < 4 && RootsAreTensors(Chain(kind), m) && Shared(m, i - 1) == 0
    ensures Chain(kind).WellIndexed() && InPlaceHasOutput(Chain(kind))
    ensures InPlaceStep(Chain(kind), [1, 2, 1, 1, 1], false, m, i) == m[i := 0]
  {
    ChainShares(kind, i);
    hide Graph.WellIndexed;
    hide InPlaceHasOutput;
    hide SharedInputFrom;
  }

  lemma ChainAliases(kind: AllocationType)
    requires kind == ArenaRw || kind == ArenaRwPersistent
    ensures Chain(kind).WellIndexed() && InPlaceHasOutput(Chain(kind))
    ensures Aliases(Chain(kind), false) == map[1 := 0, 2 := 0, 3 := 0]
  {
    ChainCounts(kind);
    ChainStep(kind, map[], 1);
    ChainStep(kind, map[1 := 0], 2);
    ChainStep(kind, map[1 := 0, 2 := 0], 3);
    var g, refcounts := Chain(kind), [1, 2, 1, 1, 1];
    assert InPlaceMap(g, refcounts, false, 1) == map[];
    hide InPlaceStep;
    assert InPlaceMap(g, refcounts, false, 3) == map[1 := 0, 2 := 0];
    assert InPlaceMap(g, refcounts, false, 5) == map[1 := 0, 2 := 0, 3 := 0];
  }

  lemma ChainAccess(kind: AllocationType, i: int, t: int)
    requires 0 <= i < 5
    ensures Chain(kind).Writes(i, t) <==> t == i
    ensures Chain(kind).Reads(i, t) ==> 0 <= t < i
    ensures !Chain(kind).Scratches(i, t)
  {}

  lemma ChainIsOrdered(kind: AllocationType)
    ensures Chain(kind).SingleProducer() && Chain(kind).DependencyOrder() && Chain(kind).PrivateTemporaries()
      && Complete(Chain(kind))
  {
    var g := Chain(kind);
    forall i, t | 0 <= i < 5
      ensures g.Writes(i, t) <==> t == i
      ensures g.Reads(i, t) ==> 0 <= t < i
      ensures !g.Scratches(i, t)
    {
      ChainAccess(kind, i, t);
    }
    hide Graph.Writes;
    hide Graph.Reads;
    hide Graph.Scratches;
    forall i, t | 0 <= i < 5 && g.Reads(i, t)
      ensures exists k :: 0 <= k < 5 && g.Writes(k, t)
    {
      assert g.Writes(t, t);
    }
  }

  lemma ChainIsRunnable(kind: AllocationType)
    ensures Runnable(Chain(kind)) && CopiesFirstInput(Chain(kind))
  {
    ChainIsIndexed(kind);
    ChainIsOrdered(kind);
    assert CopiesFirstInput(Chain(kind));
    hide Graph.WellIndexed;
    hide InPlaceHasOutput;
    hide Graph.SingleProducer;
    hide Graph.DependencyOrder;
    hide Graph.PrivateTemporaries;
    hide Complete;
    hide CopiesFirstInput;
    assert Runnable(Chain(kind));
  }

  /** The guards for sharing let contents be overwritten that are used later. */
  lemma GuardsAreNotEnough()
    ensures Runnable(Chain(ArenaRw)) && CopiesFirstInput(Chain(ArenaRw))
      && Aliases(Chain(ArenaRw), false) == map[1 := 0, 2 := 0, 3 := 0]
    ensures !Transparent(Chain(ArenaRw), Aliases(Chain(ArenaRw), false))
  {
    var g := Chain(ArenaRw);
    ChainIsRunnable(ArenaRw);
    ChainAliases(ArenaRw);
    assert g.Writes(3, 3) && !WrittenFrom(g, 1, 3);
    assert Overwrites(g, Aliases(g, false), 3, 3, 1);
    assert UsedAt(g, 4, 1);
    hide Overwrites;
    DisturbanceShows(g, false, 3, 3, 1, 4);
  }
}
