/** When each tensor must hold its data: the reference counts of `arena_planner.cc`.

  A tensor is queued for allocation by the first node that writes it (or by node 0 when the graph
  provides it) and is released by the last node that reads it or one of its aliases. */
module Lifetimes {
  import opened Bytes
  import opened Graphs

  /** kNodeNotAssigned, the largest 32-bit integer. */
  const NOT_ASSIGNED := 0x7FFF_FFFF

  const SCALAR_TENSOR_BYTES := 4

  /** The tensor that owns the buffer of `t`. */
  function Shared(actual: map<int, int>, t: int): int {
    if t in actual then actual[t] else t
  }

  function Occurrences(s: seq<int>, t: int): nat {
    if s == [] then 0 else Occurrences(s[..|s| - 1], t) + if s[|s| - 1] == t then 1 else 0
  }

  lemma {:induction false} OccurrencesPositive(s: seq<int>, t: int)
    ensures Occurrences(s, t) > 0 <==> t in s
  {
    if s != [] {
      OccurrencesPositive(s[..|s| - 1], t);
      assert s == s[..|s| - 1] + [s[|s| - 1]];
    }
  }

  /** References that no node removes: graph outputs, variables and graph inputs. */
  function Pins(g: Graph, t: int): nat {
    Occurrences(g.outputs, t) + Occurrences(g.variables, t) + Occurrences(g.inputs, t)
  }

  lemma PinsPositive(g: Graph, t: int)
    ensures Pins(g, t) > 0 <==> t in g.outputs || g.Given(t)
  {
    OccurrencesPositive(g.outputs, t);
    OccurrencesPositive(g.variables, t);
    OccurrencesPositive(g.inputs, t);
  }

  // ----- uses of a buffer, in execution order -----

  predicate Position(g: Graph, i: int, j: int) {
    0 <= i <= |g.nodes| && 0 <= j && (if i < |g.nodes| then j <= |g.nodes[i].inputs| else j == 0)
  }

  predicate UseAt(g: Graph, actual: map<int, int>, i: int, j: int, t: int)
    requires 0 <= i < |g.nodes| && 0 <= j < |g.nodes[i].inputs|
  {
    g.nodes[i].inputs[j] != OPTIONAL && Shared(actual, g.nodes[i].inputs[j]) == t
  }

  function UsesBefore(g: Graph, actual: map<int, int>, i: int, j: int, t: int): nat
    requires Position(g, i, j)
    decreases i, j
  {
    if j > 0 then UsesBefore(g, actual, i, j - 1, t) + (if UseAt(g, actual, i, j - 1, t) then 1 else 0)
    else if i > 0 then UsesBefore(g, actual, i - 1, |g.nodes[i - 1].inputs|, t)
    else 0
  }

  function UsesFrom(g: Graph, actual: map<int, int>, i: int, j: int, t: int): nat
    requires Position(g, i, j)
    decreases |g.nodes| - i, if i < |g.nodes| then |g.nodes[i].inputs| - j else 0
  {
    if i == |g.nodes| then 0
    else if j == |g.nodes[i].inputs| then UsesFrom(g, actual, i + 1, 0, t)
    else (if UseAt(g, actual, i, j, t) then 1 else 0) + UsesFrom(g, actual, i, j + 1, t)
  }

  /** The node of the last use before the position, or -1. */
  function LastUseBefore(g: Graph, actual: map<int, int>, i: int, j: int, t: int): (r: int)
    requires Position(g, i, j)
    ensures -1 <= r && (j == 0 ==> r < i) && r <= i && r < |g.nodes|
    decreases i, j
  {
    if j > 0 then
      if UseAt(g, actual, i, j - 1, t) then i else LastUseBefore(g, actual, i, j - 1, t)
    else if i > 0 then LastUseBefore(g, actual, i - 1, |g.nodes[i - 1].inputs|, t)
    else -1
  }

  lemma {:induction false} UsesSplit(g: Graph, actual: map<int, int>, i: int, j: int, t: int)
    requires Position(g, i, j)
    ensures UsesBefore(g, actual, i, j, t) + UsesFrom(g, actual, i, j, t) == UsesFrom(g, actual, 0, 0, t)
    decreases i, j
  {
    if j > 0 {
      UsesSplit(g, actual, i, j - 1, t);
    } else if i > 0 {
      UsesSplit(g, actual, i - 1, |g.nodes[i - 1].inputs|, t);
    }
  }

  /** The last use is at or after every use. */
  lemma {:induction false} LastUseIsLast(g: Graph, actual: map<int, int>, i: int, j: int, i': int, j': int)
    requires Position(g, i, j) && 0 <= i' < |g.nodes| && 0 <= j' < |g.nodes[i'].inputs|
    requires g.nodes[i'].inputs[j'] != OPTIONAL
    requires i' < i || (i' == i && j' < j)
    ensures i' <= LastUseBefore(g, actual, i, j, Shared(actual, g.nodes[i'].inputs[j']))
    decreases i, j
  {
    if j > 0 {
      if !(i' == i && j' == j - 1) {
        LastUseIsLast(g, actual, i, j - 1, i', j');
      }
    } else {
      LastUseIsLast(g, actual, i - 1, |g.nodes[i - 1].inputs|, i', j');
    }
  }

  /** The last use is a use. */
  lemma {:induction false} LastUseIsUse(g: Graph, actual: map<int, int>, i: int, j: int, t: int)
    requires Position(g, i, j) && LastUseBefore(g, actual, i, j, t) >= 0
    ensures var l := LastUseBefore(g, actual, i, j, t);
      exists k :: 0 <= k < |g.nodes[l].inputs| && UseAt(g, actual, l, k, t)
    decreases i, j
  {
    if j > 0 {
      if !UseAt(g, actual, i, j - 1, t) {
        LastUseIsUse(g, actual, i, j - 1, t);
      }
    } else {
      LastUseIsUse(g, actual, i - 1, |g.nodes[i - 1].inputs|, t);
    }
  }

  // ----- allocation and deallocation nodes -----

  /** The first of the first `n` nodes that writes `t`. */
  function FirstProducer(g: Graph, t: int, n: int): (p: int)
    requires 0 <= n <= |g.nodes|
    ensures p != NOT_ASSIGNED ==> 0 <= p < n && g.Writes(p, t)
  {
    if n == 0 then NOT_ASSIGNED
    else
      var p := FirstProducer(g, t, n - 1);
      if p != NOT_ASSIGNED then p
      else if g.Writes(n - 1, t) && n - 1 != NOT_ASSIGNED then n - 1
      else NOT_ASSIGNED
  }

  lemma {:induction false} FirstProducerStable(g: Graph, t: int, m: int, n: int)
    requires 0 <= m <= n <= |g.nodes|
    ensures FirstProducer(g, t, m) != NOT_ASSIGNED ==> FirstProducer(g, t, n) == FirstProducer(g, t, m)
    ensures FirstProducer(g, t, n) != NOT_ASSIGNED && FirstProducer(g, t, n) < m ==>
      FirstProducer(g, t, m) == FirstProducer(g, t, n)
  {
    if m < n {
      FirstProducerStable(g, t, m, n - 1);
    }
  }

  lemma {:induction false} FirstProducerFinds(g: Graph, t: int, n: int, p: int)
    requires 0 <= p < n <= |g.nodes| <= NOT_ASSIGNED && g.Writes(p, t)
    ensures 0 <= FirstProducer(g, t, n) <= p
  {
    if p < n - 1 {
      FirstProducerFinds(g, t, n - 1, p);
    }
  }

  /** The allocation node of `t` once the first `n` nodes have been planned. */
  function AllocNodeAfter(g: Graph, t: int, n: int): int
    requires 0 <= n <= |g.nodes|
  {
    if g.Given(t) then 0 else FirstProducer(g, t, n)
  }

  /** The node whose execution first needs the buffer of `t`. */
  function AllocNode(g: Graph, t: int): int {
    AllocNodeAfter(g, t, |g.nodes|)
  }

  /** The deallocation node of `t` when planning has reached a position. */
  function DeallocNodeAfter(g: Graph, actual: map<int, int>, preserve: bool, i: int, j: int, t: int): int
    requires Position(g, i, j)
  {
    var last := LastUseBefore(g, actual, i, j, t);
    if preserve || Pins(g, t) > 0 || UsesFrom(g, actual, i, j, t) > 0 || last == -1
       || AllocNodeAfter(g, t, last + 1) == NOT_ASSIGNED
    then NOT_ASSIGNED else last
  }

  /** The node after whose execution the buffer of `t` may be reused. */
  function DeallocNode(g: Graph, actual: map<int, int>, preserve: bool, t: int): int {
    DeallocNodeAfter(g, actual, preserve, |g.nodes|, 0, t)
  }

  /** No buffer is released before the last node that reads it, through whichever alias. */
  lemma DeallocAfterLastConsumer(g: Graph, actual: map<int, int>, preserve: bool, i: int, t: int)
    requires 0 <= i < |g.nodes| <= NOT_ASSIGNED && g.Reads(i, t)
    ensures i <= DeallocNode(g, actual, preserve, Shared(actual, t))
  {
    var j :| 0 <= j < |g.nodes[i].inputs| && g.nodes[i].inputs[j] == t;
    LastUseIsLast(g, actual, |g.nodes|, 0, i, j);
  }

  /** Graph inputs, graph outputs and variables are never released. */
  lemma PinnedNeverDeallocated(g: Graph, actual: map<int, int>, preserve: bool, t: int)
    requires t in g.outputs || g.Given(t)
    ensures DeallocNode(g, actual, preserve, t) == NOT_ASSIGNED
  {
    PinsPositive(g, t);
  }

  /** Exactly when a buffer is released, and by which node. */
  lemma DeallocExact(g: Graph, actual: map<int, int>, preserve: bool, t: int, l: int)
    requires 0 <= l < |g.nodes| <= NOT_ASSIGNED
    ensures DeallocNode(g, actual, preserve, t) == l <==>
      && !preserve && t !in g.outputs && !g.Given(t)
      && (exists k :: 0 <= k < |g.nodes[l].inputs| && UseAt(g, actual, l, k, t))
      && (forall i, k :: l < i < |g.nodes| && 0 <= k < |g.nodes[i].inputs| ==> !UseAt(g, actual, i, k, t))
      && (exists p :: 0 <= p <= l && g.Writes(p, t))
  {
    PinsPositive(g, t);
    var n := |g.nodes|;
    var last := LastUseBefore(g, actual, n, 0, t);
    forall i, k | 0 <= i < n && 0 <= k < |g.nodes[i].inputs| && UseAt(g, actual, i, k, t)
      ensures i <= last
    {
      LastUseIsLast(g, actual, n, 0, i, k);
    }
    if last >= 0 {
      LastUseIsUse(g, actual, n, 0, t);
      forall p | 0 <= p <= last && g.Writes(p, t)
        ensures FirstProducer(g, t, last + 1) != NOT_ASSIGNED
      {
        FirstProducerFinds(g, t, last + 1, p);
      }
      if FirstProducer(g, t, last + 1) != NOT_ASSIGNED {
        assert g.Writes(FirstProducer(g, t, last + 1), t);
      }
    }
  }

  // ----- buffers shared by in-place operators -----

  /** The operator of node `i` must have a first output to share a buffer with. */
  predicate InPlaceHasOutput(g: Graph) {
    forall i :: 0 <= i < |g.nodes| && !g.nodes[i].inPlace.IsNone() && |g.nodes[i].outputs| > 0 ==>
        g.nodes[i].outputs[0] != OPTIONAL
  }

  predicate InputTensorCanBeShared(g: Graph, refcounts: seq<int>, preserve: bool, input: int, output: int,
                                   changed: bool)
    requires g.IsTensor(input) && g.IsTensor(output) && |refcounts| == |g.tensors|
  {
    var it, ot := g.tensors[input], g.tensors[output];
    && (changed ==> it.bytes == ot.bytes && it.bytes > SCALAR_TENSOR_BYTES && refcounts[input] <= 1)
    && input !in g.inputs
    && output !in g.outputs
    && (it.allocationType == ot.allocationType || it.allocationType == ArenaRw)
    && !preserve
  }

  predicate CanShareAt(g: Graph, refcounts: seq<int>, preserve: bool, i: int, j: int)
    requires g.WellIndexed() && InPlaceHasOutput(g) && |refcounts| == |g.tensors|
    requires 0 <= i < |g.nodes| && 0 <= j < |g.nodes[i].inputs| && |g.nodes[i].outputs| > 0
      && !g.nodes[i].inPlace.IsNone()
  {
    var node := g.nodes[i];
    node.inputs[j] != OPTIONAL && node.inPlace.InputShared(j)
    && InputTensorCanBeShared(g, refcounts, preserve, node.inputs[j], node.outputs[0], !node.inPlace.dataUnmodified)
  }

  /** The first shareable input of node `i` at or after position `j`. */
  function SharedInputFrom(g: Graph, refcounts: seq<int>, preserve: bool, i: int, j: int): Option<int>
    requires g.WellIndexed() && InPlaceHasOutput(g) && |refcounts| == |g.tensors|
    requires 0 <= i < |g.nodes| && |g.nodes[i].outputs| > 0 && !g.nodes[i].inPlace.IsNone()
    requires 0 <= j <= Min(MAX_SHARABLE_OP_INPUTS, |g.nodes[i].inputs|)
    decreases |g.nodes[i].inputs| - j
  {
    if j == Min(MAX_SHARABLE_OP_INPUTS, |g.nodes[i].inputs|) then None
    else if CanShareAt(g, refcounts, preserve, i, j) then Some(g.nodes[i].inputs[j])
    else SharedInputFrom(g, refcounts, preserve, i, j + 1)
  }

  lemma {:induction false} SharedInputIsRead(g: Graph, refcounts: seq<int>, preserve: bool, i: int, j: int)
    requires g.WellIndexed() && InPlaceHasOutput(g) && |refcounts| == |g.tensors|
    requires 0 <= i < |g.nodes| && |g.nodes[i].outputs| > 0 && !g.nodes[i].inPlace.IsNone()
    requires 0 <= j <= Min(MAX_SHARABLE_OP_INPUTS, |g.nodes[i].inputs|)
    ensures var o := SharedInputFrom(g, refcounts, preserve, i, j);
      o.Some? ==>
        && g.IsTensor(o.value) && g.Reads(i, o.value) && g.Writes(i, g.nodes[i].outputs[0])
        && InputTensorCanBeShared(g, refcounts, preserve, o.value, g.nodes[i].outputs[0],
            !g.nodes[i].inPlace.dataUnmodified)
    decreases |g.nodes[i].inputs| - j
  {
    if j < Min(MAX_SHARABLE_OP_INPUTS, |g.nodes[i].inputs|) && !CanShareAt(g, refcounts, preserve, i, j) {
      SharedInputIsRead(g, refcounts, preserve, i, j + 1);
    }
  }

  /** The alias recorded for the first output of node `i`, if any. */
  function InPlaceStep(g: Graph, refcounts: seq<int>, preserve: bool, actual: map<int, int>, i: int): (r: map<int, int>)
    requires g.WellIndexed() && InPlaceHasOutput(g) && |refcounts| == |g.tensors|
    requires 0 <= i < |g.nodes| && RootsAreTensors(g, actual)
    ensures RootsAreTensors(g, r)
  {
    var node := g.nodes[i];
    if |node.outputs| < 1 || node.inPlace.IsNone() then actual
    else
      var input := SharedInputFrom(g, refcounts, preserve, i, 0);
      SharedInputIsRead(g, refcounts, preserve, i, 0);
      if input.None? then actual
      else
        var root := Shared(actual, input.value);
        if !node.inPlace.dataUnmodified && refcounts[root] > 1 then actual
        else actual[node.outputs[0] := root]
  }

  predicate RootsAreTensors(g: Graph, actual: map<int, int>) {
    forall t :: t in actual ==> g.IsTensor(t) && g.IsTensor(actual[t])
  }

  /** The aliases recorded by the first `n` nodes. */
  function InPlaceMap(g: Graph, refcounts: seq<int>, preserve: bool, n: int): (r: map<int, int>)
    requires g.WellIndexed() && InPlaceHasOutput(g) && |refcounts| == |g.tensors| && 0 <= n <= |g.nodes|
    ensures RootsAreTensors(g, r)
  {
    if n == 0 then map[] else InPlaceStep(g, refcounts, preserve, InPlaceMap(g, refcounts, preserve, n - 1), n - 1)
  }

  /** Following the alias map once reaches the owner of the buffer. */
  predicate Flat(actual: map<int, int>) {
    forall t :: t in actual ==> actual[t] !in actual
  }

  ghost predicate WrittenBefore(g: Graph, t: int, p: int) {
    forall q :: 0 <= q < |g.nodes| && g.Writes(q, t) ==> q < p
  }

  /** `t` became an alias at node `p`: it reads a tensor sharing the owner's buffer and writes `t`. */
  ghost predicate AliasedAt(g: Graph, actual: map<int, int>, t: int, p: int) {
    && t in actual && 0 <= p < |g.nodes| && g.Writes(p, t)
    && WrittenBefore(g, actual[t], p)
    && t !in g.outputs
    && (exists x :: g.Reads(p, x) && x !in g.inputs && x != t && Shared(actual, x) == actual[t])
  }

  /** What one step adds: an input that is written before node `i` and is no output shares its buffer with the first
      output of the node. */
  lemma InPlaceMapStep(g: Graph, refcounts: seq<int>, preserve: bool, i: int) returns (x: int, k: int)
    requires g.WellIndexed() && InPlaceHasOutput(g) && |refcounts| == |g.tensors| && 0 <= i < |g.nodes|
      && g.DependencyOrder()
    requires InPlaceMap(g, refcounts, preserve, i + 1) != InPlaceMap(g, refcounts, preserve, i)
    ensures var m := InPlaceMap(g, refcounts, preserve, i);
      && InPlaceMap(g, refcounts, preserve, i + 1) == m[k := Shared(m, x)]
      && g.Writes(i, k) && k !in g.outputs && g.Reads(i, x) && x !in g.inputs && x != k && WrittenBefore(g, x, i)
  {
    SharedInputIsRead(g, refcounts, preserve, i, 0);
    x, k := SharedInputFrom(g, refcounts, preserve, i, 0).value, g.nodes[i].outputs[0];
    assert g.Writes(i, k);
  }

  /** Aliases lead to owners, and each was made by one of the first `n` nodes. */
  ghost predicate SoundAliases(g: Graph, actual: map<int, int>, n: int) {
    Flat(actual) && forall t :: t in actual ==> exists p :: p < n && AliasedAt(g, actual, t, p)
  }

  lemma {:induction false} InPlaceMapSound(g: Graph, refcounts: seq<int>, preserve: bool, n: int)
    requires g.WellIndexed() && InPlaceHasOutput(g) && |refcounts| == |g.tensors| && 0 <= n <= |g.nodes|
    requires g.SingleProducer() && g.DependencyOrder()
    ensures SoundAliases(g, InPlaceMap(g, refcounts, preserve, n), n)
  {
    if n == 0 {
    } else {
      var m := InPlaceMap(g, refcounts, preserve, n - 1);
      InPlaceMapSound(g, refcounts, preserve, n - 1);
      if InPlaceMap(g, refcounts, preserve, n) != m {
        var x, k := InPlaceMapStep(g, refcounts, preserve, n - 1);
        SharingKeepsSound(g, m, n - 1, k, x);
      }
    }
  }

  lemma SharingKeepsSound(g: Graph, m: map<int, int>, i: int, k: int, x: int)
    requires g.SingleProducer() && g.DependencyOrder() && SoundAliases(g, m, i) && 0 <= i < |g.nodes|
    requires g.Writes(i, k) && k !in g.outputs && g.Reads(i, x) && x !in g.inputs && x != k && WrittenBefore(g, x, i)
    ensures SoundAliases(g, m[k := Shared(m, x)], i + 1)
  {
    hide AliasedAt;
    hide WrittenBefore;
    hide Graph.Reads;
    hide Graph.Writes;
    hide Graph.SingleProducer;
    hide Graph.DependencyOrder;
    var r := m[k := Shared(m, x)];
    if x in m {
      var p :| p < i && AliasedAt(g, m, x, p);
      OwnerIsWrittenBefore(g, m, x, p, i);
      AliasStays(g, m, r, i, k, Shared(m, x), x, p);
    }
    NewAlias(g, m, r, i, k, x);
    forall t | t in m
      ensures t != k && m[t] != k && exists p :: p < i + 1 && AliasedAt(g, r, t, p)
    {
      var p :| p < i && AliasedAt(g, m, t, p);
      AliasStays(g, m, r, i, k, Shared(m, x), t, p);
    }
  }

  lemma OwnerIsWrittenBefore(g: Graph, m: map<int, int>, t: int, p: int, i: int)
    requires AliasedAt(g, m, t, p) && p < i
    ensures WrittenBefore(g, m[t], i)
  {}

  /** An alias made by an earlier node is not touched by a later one. */
  lemma AliasStays(g: Graph, m: map<int, int>, r: map<int, int>, i: int, k: int, root: int, t: int, p: int)
    requires g.SingleProducer() && g.DependencyOrder() && 0 <= i < |g.nodes| && g.Writes(i, k) && r == m[k := root]
    requires AliasedAt(g, m, t, p) && p < i
    ensures t != k && m[t] != k && AliasedAt(g, r, t, p)
  {
    var y :| g.Reads(p, y) && y !in g.inputs && y != t && Shared(m, y) == m[t];
    assert WrittenBefore(g, y, p);
    assert y != k && Shared(r, y) == r[t];
  }

  lemma NewAlias(g: Graph, m: map<int, int>, r: map<int, int>, i: int, k: int, x: int)
    requires 0 <= i < |g.nodes| && g.Writes(i, k) && k !in g.outputs && g.Reads(i, x) && x !in g.inputs && x != k
    requires r == m[k := Shared(m, x)] && WrittenBefore(g, Shared(m, x), i)
    ensures AliasedAt(g, r, k, i) && Shared(m, x) != k
  {
    assert Shared(r, x) == r[k];
  }

  /** `FindSharedTensor` is idempotent. */
  lemma SharedIdempotent(g: Graph, refcounts: seq<int>, preserve: bool, t: int)
    requires g.WellIndexed() && InPlaceHasOutput(g) && |refcounts| == |g.tensors|
    requires g.SingleProducer() && g.DependencyOrder()
    ensures var m := InPlaceMap(g, refcounts, preserve, |g.nodes|);
      Shared(m, Shared(m, t)) == Shared(m, t)
  {
    InPlaceMapSound(g, refcounts, preserve, |g.nodes|);
  }

  /** The references to each tensor before any is shared. */
  function ReferenceCounts(g: Graph): (r: seq<int>)
    ensures |r| == |g.tensors|
  {
    seq(|g.tensors|, t requires 0 <= t < |g.tensors| => Pins(g, t) + UsesFrom(g, map[], 0, 0, t))
  }

  /** The aliases that planning records. */
  function Aliases(g: Graph, preserve: bool): map<int, int>
    requires g.WellIndexed() && InPlaceHasOutput(g)
  {
    InPlaceMap(g, ReferenceCounts(g), preserve, |g.nodes|)
  }

  /** No operator shares a buffer when none is registered to, and none does when all tensors are to be preserved. */
  lemma WithoutSharing(g: Graph, preserve: bool)
    requires g.WellIndexed() && InPlaceHasOutput(g) && (g.NoInPlace() || preserve)
    ensures Aliases(g, preserve) == map[]
  {
    NothingIsShared(g, ReferenceCounts(g), preserve, |g.nodes|);
  }

  lemma {:induction false} NothingIsShared(g: Graph, refcounts: seq<int>, preserve: bool, n: int)
    requires g.WellIndexed() && InPlaceHasOutput(g) && |refcounts| == |g.tensors| && 0 <= n <= |g.nodes|
    requires g.NoInPlace() || preserve
    ensures InPlaceMap(g, refcounts, preserve, n) == map[]
  {
    if n > 0 {
      NothingIsShared(g, refcounts, preserve, n - 1);
      if |g.nodes[n - 1].outputs| > 0 && !g.nodes[n - 1].inPlace.IsNone() {
        SharedInputIsRead(g, refcounts, preserve, n - 1, 0);
      }
    }
  }

  /** The alias of `t` is kept when buffers are reserved: both tensors are in the arena and of one size. */
  predicate KeepsAlias(g: Graph, m: map<int, int>, t: int) {
    && t in m && g.IsTensor(t) && g.IsTensor(m[t])
    && g.tensors[t].allocationType.ArenaRw? && g.tensors[m[t]].allocationType.ArenaRw?
    && g.tensors[t].bytes == g.tensors[m[t]].bytes > 0
  }

  /** The tensor whose buffer holds the contents of `t`. */
  function Owner(g: Graph, m: map<int, int>, t: int): int {
    if KeepsAlias(g, m, t) then m[t] else t
  }

  /** The two alias maps let every tensor share the same buffer. */
  ghost predicate SameOwners(g: Graph, a: map<int, int>, b: map<int, int>) {
    forall t :: (KeepsAlias(g, a, t) <==> KeepsAlias(g, b, t)) && Owner(g, a, t) == Owner(g, b, t)
  }

  lemma AllocNodeOfWritten(g: Graph, t: int, p: int)
    requires g.SingleProducer() && 0 <= p < |g.nodes| <= NOT_ASSIGNED && g.Writes(p, t)
    ensures AllocNode(g, t) == p && FirstProducer(g, t, |g.nodes|) == p
  {
    FirstProducerFinds(g, t, |g.nodes|, p);
    assert g.Writes(FirstProducer(g, t, |g.nodes|), t);
  }

  /** The usage interval of a buffer covers every node that touches the tensor or any of its aliases. */
  lemma LifetimeCoversAliases(g: Graph, refcounts: seq<int>, preserve: bool, i: int, t: int)
    requires g.WellIndexed() && InPlaceHasOutput(g) && |refcounts| == |g.tensors|
    requires g.SingleProducer() && g.DependencyOrder()
    requires 0 <= i < |g.nodes| <= NOT_ASSIGNED && (g.Reads(i, t) || g.Writes(i, t))
    requires var root := Shared(InPlaceMap(g, refcounts, preserve, |g.nodes|), t);
      g.Given(root) || exists q :: 0 <= q < |g.nodes| && g.Writes(q, root)
    ensures var m := InPlaceMap(g, refcounts, preserve, |g.nodes|);
      AllocNode(g, Shared(m, t)) <= i <= DeallocNode(g, m, preserve, Shared(m, t))
  {
    var m := InPlaceMap(g, refcounts, preserve, |g.nodes|);
    InPlaceMapSound(g, refcounts, preserve, |g.nodes|);
    var root := Shared(m, t);
    if !g.Given(root) {
      var q :| 0 <= q < |g.nodes| && g.Writes(q, root);
      AllocNodeOfWritten(g, root, q);
      if t in m {
        var p :| p < |g.nodes| && AliasedAt(g, m, t, p);
        assert g.Writes(p, t) && WrittenBefore(g, root, p);
        assert q < p;
        assert g.Reads(i, t) ==> p < i;
        assert g.Writes(i, t) ==> p == i;
      } else {
        assert g.Reads(i, t) ==> q < i;
        assert g.Writes(i, t) ==> q == i;
      }
    }
    if g.Reads(i, t) {
      DeallocAfterLastConsumer(g, m, preserve, i, t);
    } else if t in m {
      var p :| p < |g.nodes| && AliasedAt(g, m, t, p);
      assert g.Writes(p, t) && p == i;
      var x :| g.Reads(p, x) && x !in g.inputs && x != t && Shared(m, x) == m[t];
      DeallocAfterLastConsumer(g, m, preserve, i, x);
    } else {
      assert !g.Given(t);
      AllocNodeOfWritten(g, t, i);
      DeallocNotBeforeAlloc(g, m, preserve, t);
    }
  }

  lemma DeallocNotBeforeAlloc(g: Graph, actual: map<int, int>, preserve: bool, t: int)
    requires |g.nodes| <= NOT_ASSIGNED && AllocNode(g, t) != NOT_ASSIGNED
    ensures AllocNode(g, t) <= DeallocNode(g, actual, preserve, t)
  {
    var last := LastUseBefore(g, actual, |g.nodes|, 0, t);
    if last >= 0 {
      FirstProducerStable(g, t, last + 1, |g.nodes|);
    }
  }

  // ----- the graphs planning is for -----

  predicate OnArena(g: Graph, t: int) {
    g.IsTensor(t) && g.tensors[t].InArena() && g.tensors[t].bytes > 0
  }

  /** Every arena tensor a node reads is given by the graph or written by some node. */
  ghost predicate Complete(g: Graph) {
    forall i, t :: 0 <= i < |g.nodes| && g.Reads(i, t) && OnArena(g, t) ==>
      g.Given(t) || exists k :: 0 <= k < |g.nodes| && g.Writes(k, t)
  }

  /** Graphs in dependency order in which every tensor that is read has contents. */
  ghost predicate Runnable(g: Graph) {
    && g.WellIndexed() && InPlaceHasOutput(g) && |g.nodes| < NOT_ASSIGNED
    && g.SingleProducer() && g.DependencyOrder() && g.PrivateTemporaries() && Complete(g)
    && (forall i, j, k ::
          0 <= i < |g.nodes| && 0 <= j < k < |g.nodes[i].outputs| && g.nodes[i].outputs[j] != OPTIONAL ==>
            g.nodes[i].outputs[j] != g.nodes[i].outputs[k])
  }

  lemma RunnableIsIndexed(g: Graph)
    requires Runnable(g)
    ensures g.WellIndexed() && InPlaceHasOutput(g)
  {}
}
