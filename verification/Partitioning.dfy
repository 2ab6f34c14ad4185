/** The graph partitioner: `graph_info.cc`.

    `std::sort` followed by `std::unique` is modelled by its effect, `Uniquefy`. The ghost field `plan`
    records the schedule behind the epoch numbers; the other fields are the members of the source's class. */
module Partitioning {
  import opened Bytes

  import opened Graphs

  import opened Partitions

  import opened PartitionTheorems

  // ----- sorted lists without duplicates -----

  predicate Below(a: int, b: int) { a < b }

  predicate EdgeBelow(a: Edge, b: Edge) { a.before < b.before || (a.before == b.before && a.after < b.after) }

  ghost predicate StrictOrder<T(!new)>(below: (T, T) -> bool) {
    && (forall x :: !below(x, x))
    && (forall x, y :: below(x, y) || x == y || below(y, x))
    && (forall x, y, z :: below(x, y) && below(y, z) ==> below(x, z))
  }

  /** Ascending, and so without duplicates. */
  ghost predicate Sorted<T(!new)>(s: seq<T>, below: (T, T) -> bool) {
    forall i, j :: 0 <= i < j < |s| ==> below(s[i], s[j])
  }

  function InsertUnique<T(==, !new)>(s: seq<T>, x: T, below: (T, T) -> bool): (r: seq<T>)
    requires StrictOrder(below) && Sorted(s, below)
    ensures Sorted(r, below)
    ensures forall y :: y in r <==> y in s || y == x
  {
    if s == [] then [x]
    else
      var last := s[|s| - 1];
      assert s == s[..|s| - 1] + [last];
      if below(last, x) then s + [x]
      else if last == x then s
      else
        var r := InsertUnique(s[..|s| - 1], x, below);
        assert forall i :: 0 <= i < |r| ==> r[i] in r;
        r + [last]
  }

  function Uniquefy<T(==, !new)>(s: seq<T>, below: (T, T) -> bool): (r: seq<T>)
    requires StrictOrder(below)
    ensures Sorted(r, below)
    ensures forall y :: y in r <==> y in s
  {
    if s == [] then []
    else
      assert s == s[..|s| - 1] + [s[|s| - 1]];
      InsertUnique(Uniquefy(s[..|s| - 1], below), s[|s| - 1], below)
  }

  // ----- how the member variables follow the schedule -----

  /** A tensor has the epoch of the node that writes it, and is always ready if none does. */
  ghost predicate TensorsFollow(p: Problem, s: Plan, tensorEpochs: seq<int>)
    requires s.Consistent(p.Size())
  {
    && |tensorEpochs| == |p.graph.tensors|
    && (forall j, t :: p.IsNode(j) && p.graph.IsTensor(t) && p.graph.Writes(j, t) ==> tensorEpochs[t] == s.epochs[j])
    && (forall t :: p.graph.IsTensor(t) && Sourceless(p, t) ==> tensorEpochs[t] == ALWAYS_READY)
  }

  ghost predicate Sourceless(p: Problem, t: int) {
    forall j :: p.IsNode(j) ==> !p.graph.Writes(j, t)
  }

  /** How many of the edges into `x` come from nodes without an epoch. */
  function Pending(edges: seq<Edge>, epochs: seq<int>, x: int): nat
    requires forall e :: e in edges ==> 0 <= e.before < |epochs|
  {
    if edges == [] then 0
    else
      var e := edges[|edges| - 1];
      Pending(edges[..|edges| - 1], epochs, x) + if e.after == x && epochs[e.before] == NOT_READY then 1 else 0
  }

  lemma {:induction false} PendingIsZero(edges: seq<Edge>, epochs: seq<int>, x: int)
    requires forall e :: e in edges ==> 0 <= e.before < |epochs|
    ensures Pending(edges, epochs, x) == 0 <==> forall e :: e in edges && e.after == x ==> epochs[e.before] != NOT_READY
  {
    if edges != [] {
      assert edges == edges[..|edges| - 1] + [edges[|edges| - 1]];
      PendingIsZero(edges[..|edges| - 1], epochs, x);
    }
  }

  /** Giving node `i` an epoch removes it as a precondition of its dependents, once each. */
  lemma {:induction false} PendingDrops(edges: seq<Edge>, epochs: seq<int>, i: int, k: int, x: int)
    requires forall e :: e in edges ==> 0 <= e.before < |epochs|
    requires forall m, l :: 0 <= m < l < |edges| ==> edges[m] != edges[l]
    requires 0 <= i < |epochs| && epochs[i] == NOT_READY && k != NOT_READY
    ensures Pending(edges, epochs, x) == Pending(edges, epochs[i := k], x) + if Edge(i, x) in edges then 1 else 0
  {
    if edges != [] {
      var before, last := edges[..|edges| - 1], edges[|edges| - 1];
      assert edges == before + [last];
      PendingDrops(before, epochs, i, k, x);
    }
  }

  function Originals(p: Problem, run: seq<int>): (r: seq<int>)
    requires p.WellFormed() && forall m :: 0 <= m < |run| ==> p.IsNode(run[m])
    ensures |r| == |run|
  {
    seq(|run|, m requires 0 <= m < |run| && p.IsNode(run[m]) => p.nodeIndex[run[m]])
  }

  /** Among the operands of a node of subset `epoch`, `t` comes from elsewhere and so enters subset `k`. */
  predicate Enters(operands: seq<int>, tensorEpochs: seq<int>, epoch: int, k: int, t: int) {
    k == epoch && t in operands && 0 <= t < |tensorEpochs| && tensorEpochs[t] != k
  }

  /** Among the operands of a node of subset `epoch`, `t` comes from another subset `k` and so leaves it. */
  predicate Leaves(operands: seq<int>, tensorEpochs: seq<int>, epoch: int, k: int, t: int) {
    k != epoch && t in operands && 0 <= t < |tensorEpochs| && tensorEpochs[t] == k
  }

  /** A node of subset `k` reads `t`, which that subset does not produce. */
  ghost predicate Imports(p: Problem, s: Plan, tensorEpochs: seq<int>, k: int, t: int)
    requires |s.epochs| == p.Size() && |tensorEpochs| == |p.graph.tensors|
  {
    p.graph.IsTensor(t) && tensorEpochs[t] != k && exists i :: p.IsNode(i) && s.epochs[i] == k && p.graph.Reads(i, t)
  }

  /** Subset `k` produces `t`, which a node of another subset reads. */
  ghost predicate Exports(p: Problem, s: Plan, tensorEpochs: seq<int>, k: int, t: int)
    requires |s.epochs| == p.Size() && |tensorEpochs| == |p.graph.tensors|
  {
    p.graph.IsTensor(t) && tensorEpochs[t] == k && exists i ::
        p.IsNode(i) && s.epochs[i] >= 0 && s.epochs[i] != k && p.graph.Reads(i, t)
  }

  ghost predicate NodesFollow(p: Problem, s: Plan, subsets: seq<NodeSubset>)
    requires p.WellFormed() && s.Consistent(p.Size())
  {
    && |subsets| == |s.runs|
    && (forall k :: 0 <= k < |subsets| ==> subsets[k].nodes == Originals(p, s.runs[k]))
    && (forall k :: 0 <= k < |subsets| ==>
        subsets[k].kind == if s.runs[k] == [] then Unexplored else p.KindOf(s.runs[k][0]))
  }

  ghost predicate SubsetsFollow(p: Problem, s: Plan, tensorEpochs: seq<int>, subsets: seq<NodeSubset>)
    requires p.WellFormed() && s.Consistent(p.Size()) && |tensorEpochs| == |p.graph.tensors|
  {
    && NodesFollow(p, s, subsets)
    && (forall k, t :: 0 <= k < |subsets| ==> (t in subsets[k].inputTensors <==> Imports(p, s, tensorEpochs, k, t)))
    && (forall k, t :: 0 <= k < |subsets| ==> (t in subsets[k].outputTensors <==> Exports(p, s, tensorEpochs, k, t)))
  }

  ghost predicate CountsFollow(p: Problem, s: Plan, incoming: seq<int>)
    requires p.WellFormed() && s.Consistent(p.Size())
  {
    |incoming| == p.Size() && forall x :: p.IsNode(x) ==> incoming[x] == Pending(p.edges, s.epochs, x)
  }

  /** The tests of `UpdateNode` decide whether everything the node depends on is assigned. */
  lemma ReadinessIsTested(p: Problem, s: Plan, tensorEpochs: seq<int>, incoming: seq<int>, i: int)
    requires p.WellFormed() && s.Consistent(p.Size()) && TensorsFollow(p, s, tensorEpochs)
      && CountsFollow(p, s, incoming) && p.IsNode(i)
    ensures ReadyBy(p, s, i, |s.runs| - 1) <==>
      incoming[i] == 0 && forall t :: p.graph.IsTensor(t) && p.graph.Reads(i, t) ==> tensorEpochs[t] != NOT_READY
  {
    PendingIsZero(p.edges, s.epochs, i);
    if ReadyBy(p, s, i, |s.runs| - 1) {
      forall t | p.graph.IsTensor(t) && p.graph.Reads(i, t)
        ensures tensorEpochs[t] != NOT_READY
      {
        if !Sourceless(p, t) {
          var j :| p.IsNode(j) && p.graph.Writes(j, t);
          assert p.DependsOn(i, j);
        }
      }
      forall e | e in p.edges && e.after == i
        ensures s.epochs[e.before] != NOT_READY
      {
        assert e == Edge(e.before, i) && p.DependsOn(i, e.before);
      }
    }
    if incoming[i] == 0 && forall t :: p.graph.IsTensor(t) && p.graph.Reads(i, t) ==> tensorEpochs[t] != NOT_READY {
      forall j | p.DependsOn(i, j)
        ensures s.By(j, |s.runs| - 1)
      {
        if Edge(j, i) !in p.edges {
          var t :| p.graph.Reads(i, t) && p.graph.Writes(j, t);
          assert t in p.graph.nodes[i].inputs && p.graph.IsTensor(t);
        }
      }
    }
  }

  /** Only the outputs of node `i` have a new epoch. */
  ghost predicate Moved(g: Graph, i: int, epoch: int, before: seq<int>, after: seq<int>)
    requires 0 <= i < |g.nodes| && |before| == |g.tensors|
  {
    |after| == |before| && forall t :: g.IsTensor(t) ==> after[t] == if g.Writes(i, t) then epoch else before[t]
  }

  /** The operands of a node of subset `epoch` are recorded as inputs of that subset and outputs of others. */
  ghost predicate Recorded(operands: seq<int>, tensorEpochs: seq<int>, epoch: int, before: seq<NodeSubset>,
                           after: seq<NodeSubset>) {
    && |after| == |before|
    && (forall k :: 0 <= k < |after| ==> after[k].nodes == before[k].nodes && after[k].kind == before[k].kind)
    && (forall k, t :: 0 <= k < |after| ==>
          (t in after[k].inputTensors <==> t in before[k].inputTensors || Enters(operands, tensorEpochs, epoch, k, t)))
    && (forall k, t :: 0 <= k < |after| ==>
          (t in after[k].outputTensors <==>
           t in before[k].outputTensors || Leaves(operands, tensorEpochs, epoch, k, t)))
  }

  /** Node `i` no longer counts as a precondition. */
  ghost predicate Released(p: Problem, i: int, before: seq<int>, after: seq<int>) {
    && |before| == |after| == p.Size()
    && forall x :: p.IsNode(x) ==> after[x] == before[x] - if Edge(i, x) in p.edges then 1 else 0
  }

  /** After node `i` joins, the epochs of its outputs are the only ones to change. */
  lemma JoinMovesOutputs(p: Problem, s: Plan, i: int, before: seq<int>, after: seq<int>)
    requires p.WellFormed() && p.OneProducer() && s.Consistent(p.Size()) && |s.runs| > 0 && p.IsNode(i)
      && s.epochs[i] == NOT_READY
    requires TensorsFollow(p, s, before) && Moved(p.graph, i, |s.runs| - 1, before, after)
    ensures s.Join(i).Consistent(p.Size()) && TensorsFollow(p, s.Join(i), after)
  {
    JoinKeepsConsistent(s, p.Size(), i);
  }

  /** No assigned node reads what a waiting node writes. */
  lemma WaitingOutputIsUnread(p: Problem, s: Plan, i: int, t: int)
    requires p.WellFormed() && Legal(p, s) && |s.runs| > 0 && p.IsNode(i) && CanJoin(p, s, i) && p.graph.Writes(i, t)
    ensures forall x :: p.IsNode(x) && p.graph.Reads(x, t) ==> s.epochs[x] == NOT_READY && x != i
  {
    forall x | p.IsNode(x) && p.graph.Reads(x, t)
      ensures s.epochs[x] == NOT_READY && x != i
    {
      assert p.DependsOn(x, i);
      if s.epochs[x] != NOT_READY {
        AssignedIsReady(p, s, x);
      }
    }
  }

  /** The epoch of `t` after node `i` joined subset `e`; an output of the node was waiting, and read by no assigned
      node. */
  ghost predicate MovedWith(p: Problem, s: Plan, i: int, e: int, before: seq<int>, after: seq<int>, t: int)
    requires p.WellFormed() && |s.epochs| == p.Size() && p.IsNode(i) && |before| == |after| == |p.graph.tensors|
  {
    p.graph.IsTensor(t) ==>
      if p.graph.Writes(i, t) then
        before[t] == NOT_READY && after[t] == e && forall x :: p.IsNode(x) && p.graph.Reads(x, t) ==>
            s.epochs[x] == NOT_READY && x != i
      else after[t] == before[t]
  }

  lemma JoinExtendsImports(p: Problem, s: Plan, i: int, before: seq<int>, after: seq<int>, k: int, t: int)
    requires p.WellFormed() && |s.epochs| == p.Size() && |s.runs| > 0 && p.IsNode(i) && s.epochs[i] == NOT_READY
    requires |before| == |after| == |p.graph.tensors| && 0 <= k < |s.runs|
      && MovedWith(p, s, i, |s.runs| - 1, before, after, t)
    ensures Imports(p, s.Join(i), after, k, t) <==>
      Imports(p, s, before, k, t) || Enters(p.graph.nodes[i].inputs, after, |s.runs| - 1, k, t)
  {
    var e, j := |s.runs| - 1, s.Join(i);
    if Imports(p, s, before, k, t) {
      var x :| p.IsNode(x) && s.epochs[x] == k && p.graph.Reads(x, t);
      assert j.epochs[x] == k;
    }
    if p.graph.IsTensor(t) && p.graph.Reads(i, t) {
      assert j.epochs[i] == e;
    }
  }

  lemma JoinExtendsExports(p: Problem, s: Plan, i: int, before: seq<int>, after: seq<int>, k: int, t: int)
    requires p.WellFormed() && |s.epochs| == p.Size() && |s.runs| > 0 && p.IsNode(i) && s.epochs[i] == NOT_READY
    requires |before| == |after| == |p.graph.tensors| && 0 <= k < |s.runs|
      && MovedWith(p, s, i, |s.runs| - 1, before, after, t)
    ensures Exports(p, s.Join(i), after, k, t) <==>
      Exports(p, s, before, k, t) || Leaves(p.graph.nodes[i].inputs, after, |s.runs| - 1, k, t)
  {
    var e, j := |s.runs| - 1, s.Join(i);
    if Exports(p, s, before, k, t) {
      var x :| p.IsNode(x) && s.epochs[x] >= 0 && s.epochs[x] != k && p.graph.Reads(x, t);
      assert j.epochs[x] >= 0 && j.epochs[x] != k;
    }
    if p.graph.IsTensor(t) && p.graph.Reads(i, t) {
      assert j.epochs[i] == e;
    }
  }

  lemma JoinMovesTensor(p: Problem, s: Plan, i: int, before: seq<int>, after: seq<int>, t: int)
    requires p.WellFormed() && Legal(p, s) && |s.runs| > 0 && p.IsNode(i) && CanJoin(p, s, i)
    requires TensorsFollow(p, s, before) && Moved(p.graph, i, |s.runs| - 1, before, after)
    ensures MovedWith(p, s, i, |s.runs| - 1, before, after, t)
  {
    if p.graph.IsTensor(t) && p.graph.Writes(i, t) {
      WaitingOutputIsUnread(p, s, i, t);
    }
  }

  lemma JoinExtendsNodes(p: Problem, s: Plan, i: int, was: seq<NodeSubset>, subsets: seq<NodeSubset>)
    requires p.WellFormed() && s.Consistent(p.Size()) && |s.runs| > 0 && p.IsNode(i) && s.epochs[i] == NOT_READY
    requires s.Last() == [] || p.KindOf(s.Last()[0]) == p.KindOf(i)
    requires NodesFollow(p, s, was) && |subsets| == |was|
    requires forall k :: 0 <= k < |subsets| - 1 ==> subsets[k].nodes == was[k].nodes && subsets[k].kind == was[k].kind
    requires subsets[|s.runs| - 1].nodes == was[|s.runs| - 1].nodes + [p.nodeIndex[i]]
      && subsets[|s.runs| - 1].kind == p.KindOf(i)
    ensures s.Join(i).Consistent(p.Size()) && NodesFollow(p, s.Join(i), subsets)
  {
    hide Problem.WellFormed;
    hide Problem.DependsOn;
    hide Originals;
    var e, j := |s.runs| - 1, s.Join(i);
    JoinKeepsConsistent(s, p.Size(), i);
    JoinedOriginals(p, s.runs[e], i);
    RunsAreOfNodes(s, p.Size());
    RunsAreOfNodes(j, p.Size());
    hide Plan.Consistent;
    forall k | 0 <= k < |subsets|
      ensures subsets[k].nodes == Originals(p, j.runs[k])
      ensures subsets[k].kind == if j.runs[k] == [] then Unexplored else p.KindOf(j.runs[k][0])
    {
      if k < e {
        assert j.runs[k] == s.runs[k];
      }
    }
  }

  lemma RunsAreOfNodes(s: Plan, n: nat)
    requires s.Consistent(n)
    ensures forall k, m :: 0 <= k < |s.runs| && 0 <= m < |s.runs[k]| ==> 0 <= s.runs[k][m] < n
  {}

  lemma JoinedOriginals(p: Problem, run: seq<int>, i: int)
    requires p.WellFormed() && p.IsNode(i) && forall m :: 0 <= m < |run| ==> p.IsNode(run[m])
    ensures |p.nodeIndex| == p.Size() && Originals(p, run + [i]) == Originals(p, run) + [p.nodeIndex[i]]
  {}

  lemma JoinExtendsSubsets(p: Problem, s: Plan, i: int, before: seq<int>, after: seq<int>,
                           was: seq<NodeSubset>, marked: seq<NodeSubset>, subsets: seq<NodeSubset>)
    requires p.WellFormed() && Legal(p, s) && |s.runs| > 0 && p.IsNode(i) && CanJoin(p, s, i)
    requires TensorsFollow(p, s, before) && Moved(p.graph, i, |s.runs| - 1, before, after)
      && SubsetsFollow(p, s, before, was)
    requires var e := |s.runs| - 1;
      marked == was[e := was[e].(nodes := was[e].nodes + [p.nodeIndex[i]], kind := p.KindOf(i))]
    requires Recorded(p.graph.nodes[i].inputs, after, |s.runs| - 1, marked, subsets)
    ensures s.Join(i).Consistent(p.Size()) && SubsetsFollow(p, s.Join(i), after, subsets)
  {
    hide Problem.DependsOn;
    hide Enters;
    hide Leaves;
    JoinExtendsNodes(p, s, i, was, subsets);
    forall k, t | 0 <= k < |subsets|
      ensures t in subsets[k].inputTensors <==> Imports(p, s.Join(i), after, k, t)
      ensures t in subsets[k].outputTensors <==> Exports(p, s.Join(i), after, k, t)
    {
      hide Imports;
      hide Exports;
      JoinMovesTensor(p, s, i, before, after, t);
      JoinExtendsImports(p, s, i, before, after, k, t);
      JoinExtendsExports(p, s, i, before, after, k, t);
    }
  }

  lemma EpochsAreBounded(p: Problem, s: Plan, tensorEpochs: seq<int>)
    requires p.WellFormed() && s.Consistent(p.Size()) && TensorsFollow(p, s, tensorEpochs)
    ensures forall t :: p.graph.IsTensor(t) ==> tensorEpochs[t] < |s.runs|
  {
    forall t | p.graph.IsTensor(t)
      ensures tensorEpochs[t] < |s.runs|
    {
      if !Sourceless(p, t) {
        var j :| p.IsNode(j) && p.graph.Writes(j, t);
        assert tensorEpochs[t] == s.epochs[j];
      }
    }
  }

  lemma MovedIsBounded(p: Problem, s: Plan, i: int, before: seq<int>, after: seq<int>)
    requires p.WellFormed() && s.Consistent(p.Size()) && TensorsFollow(p, s, before) && |s.runs| > 0 && p.IsNode(i)
    requires Moved(p.graph, i, |s.runs| - 1, before, after)
    ensures |after| == |p.graph.tensors| && forall t :: p.graph.IsTensor(t) ==> after[t] < |s.runs|
  {
    EpochsAreBounded(p, s, before);
  }

  lemma OpenedKeepsSubsets(p: Problem, s: Plan, tensorEpochs: seq<int>, subsets: seq<NodeSubset>)
    requires p.WellFormed() && s.Consistent(p.Size()) && TensorsFollow(p, s, tensorEpochs)
      && SubsetsFollow(p, s, tensorEpochs, subsets)
    ensures s.Opened().Consistent(p.Size())
    ensures SubsetsFollow(p, s.Opened(), tensorEpochs, subsets + [NodeSubset(Unexplored, [], [], [])])
  {
    hide Problem.WellFormed;
    var o, after := s.Opened(), subsets + [NodeSubset(Unexplored, [], [], [])];
    EpochsAreBounded(p, s, tensorEpochs);
    assert forall k :: 0 <= k < |s.runs| ==> o.runs[k] == s.runs[k] && after[k] == subsets[k];
    assert forall i :: 0 <= i < p.Size() && s.epochs[i] != NOT_READY ==> o.runs[s.epochs[i]] == s.runs[s.epochs[i]];
    forall k, t | 0 <= k < |after|
      ensures t in after[k].inputTensors <==> Imports(p, o, tensorEpochs, k, t)
      ensures t in after[k].outputTensors <==> Exports(p, o, tensorEpochs, k, t)
    {
      if k < |subsets| {
        assert Imports(p, o, tensorEpochs, k, t) == Imports(p, s, tensorEpochs, k, t);
        assert Exports(p, o, tensorEpochs, k, t) == Exports(p, s, tensorEpochs, k, t);
      }
    }
  }

  lemma ClosedKeepsSubsets(p: Problem, s: Plan, tensorEpochs: seq<int>, subsets: seq<NodeSubset>)
    requires p.WellFormed() && s.Consistent(p.Size()) && s.Opened().Consistent(p.Size())
      && |tensorEpochs| == |p.graph.tensors|
    requires SubsetsFollow(p, s.Opened(), tensorEpochs, subsets)
    ensures |subsets| == |s.runs| + 1 && SubsetsFollow(p, s, tensorEpochs, subsets[..|subsets| - 1])
  {
    hide Problem.WellFormed;
    var o, after := s.Opened(), subsets[..|subsets| - 1];
    assert forall k :: 0 <= k < |s.runs| ==> o.runs[k] == s.runs[k] && after[k] == subsets[k];
    forall k, t | 0 <= k < |after|
      ensures t in after[k].inputTensors <==> Imports(p, s, tensorEpochs, k, t)
      ensures t in after[k].outputTensors <==> Exports(p, s, tensorEpochs, k, t)
    {
      assert Imports(p, o, tensorEpochs, k, t) == Imports(p, s, tensorEpochs, k, t);
      assert Exports(p, o, tensorEpochs, k, t) == Exports(p, s, tensorEpochs, k, t);
    }
  }

  lemma JoinReleases(p: Problem, s: Plan, i: int, before: seq<int>, after: seq<int>)
    requires p.WellFormed() && Sorted(p.edges, EdgeBelow) && s.Consistent(p.Size()) && |s.runs| > 0 && p.IsNode(i)
      && s.epochs[i] == NOT_READY
    requires CountsFollow(p, s, before) && Released(p, i, before, after)
    ensures s.Join(i).Consistent(p.Size()) && CountsFollow(p, s.Join(i), after)
  {
    JoinKeepsConsistent(s, p.Size(), i);
    forall x | p.IsNode(x)
      ensures after[x] == Pending(p.edges, s.Join(i).epochs, x)
    {
      PendingDrops(p.edges, s.epochs, i, |s.runs| - 1, x);
    }
  }

  /** An assigned node has all it depends on assigned. */
  lemma AssignedIsReady(p: Problem, s: Plan, i: int)
    requires p.WellFormed() && Legal(p, s) && p.IsNode(i) && s.epochs[i] != NOT_READY
    ensures ReadyBy(p, s, i, |s.runs| - 1)
  {
    var k := s.epochs[i];
    assert i in s.runs[k];
    var m :| 0 <= m < |s.runs[k]| && s.runs[k][m] == i;
    forall j | p.DependsOn(i, j)
      ensures s.By(j, |s.runs| - 1)
    {
      assert s.By(j, k - 1) || j in s.runs[k][..m];
    }
  }

  /** Graph output `t` is produced by subset `k`. */
  predicate Yields(outputs: seq<int>, tensorEpochs: seq<int>, k: int, t: int) {
    t in outputs && 0 <= t < |tensorEpochs| && tensorEpochs[t] == k
  }

  lemma OutputsAreTensors(p: Problem)
    requires p.WellFormed()
    ensures forall m :: 0 <= m < |p.graph.outputs| ==> p.graph.IsTensor(p.graph.outputs[m])
  {}

  lemma AllHaveEpochs(p: Problem, s: Plan, tensorEpochs: seq<int>)
    requires p.WellFormed() && s.Consistent(p.Size()) && TensorsFollow(p, s, tensorEpochs)
    requires forall i :: p.IsNode(i) ==> s.epochs[i] != NOT_READY
    ensures forall t :: p.graph.IsTensor(t) ==> tensorEpochs[t] == ALWAYS_READY || 0 <= tensorEpochs[t] < |s.runs|
  {
    forall t | p.graph.IsTensor(t)
      ensures tensorEpochs[t] == ALWAYS_READY || 0 <= tensorEpochs[t] < |s.runs|
    {
      if !Sourceless(p, t) {
        var j :| p.IsNode(j) && p.graph.Writes(j, t);
        assert tensorEpochs[t] == s.epochs[j];
      }
    }
  }

  lemma EveryNodeHasAnEpoch(p: Problem, s: Plan)
    requires p.WellFormed() && PartitionOf(p, s) && p.Acyclic()
    ensures forall i :: p.IsNode(i) ==> s.epochs[i] != NOT_READY
  {
    var rank :| p.RankedBy(rank);
    forall i | p.IsNode(i)
      ensures s.epochs[i] != NOT_READY
    {
      RankedIsAssigned(p, s, rank, i);
    }
  }

  // ----- the result -----

  ghost predicate RunReads(p: Problem, run: seq<int>, t: int) {
    exists i :: i in run && p.IsNode(i) && p.graph.Reads(i, t)
  }

  ghost predicate RunWrites(p: Problem, run: seq<int>, t: int) {
    exists i :: i in run && p.IsNode(i) && p.graph.Writes(i, t)
  }

  /** What leaves subset `k`: it produces `t`, and another subset reads it or it is an output of the graph. */
  ghost predicate Needed(p: Problem, s: Plan, k: int, t: int)
    requires 0 <= k < |s.runs|
  {
    RunWrites(p, s.runs[k], t)
        && (t in p.graph.outputs || exists l :: 0 <= l < |s.runs| && l != k && RunReads(p, s.runs[l], t))
  }

  /** The subsets list, for every run, its nodes by their original index, its type, and exactly the tensors
      that enter and leave it, in ascending order and without duplicates. */
  ghost predicate Describes(p: Problem, s: Plan, subsets: seq<NodeSubset>)
    requires p.WellFormed() && s.Consistent(p.Size())
  {
    && NodesFollow(p, s, subsets)
    && (forall k :: 0 <= k < |subsets| ==>
          Sorted(subsets[k].inputTensors, Below) && Sorted(subsets[k].outputTensors, Below))
    && (forall k, t :: 0 <= k < |subsets| ==>
          (t in subsets[k].inputTensors <==> RunReads(p, s.runs[k], t) && !RunWrites(p, s.runs[k], t)))
    && (forall k, t :: 0 <= k < |subsets| ==> (t in subsets[k].outputTensors <==> Needed(p, s, k, t)))
  }

  lemma RunsReadByEpoch(p: Problem, s: Plan, k: int, t: int)
    requires p.WellFormed() && s.Consistent(p.Size()) && 0 <= k < |s.runs|
    ensures RunReads(p, s.runs[k], t) <==> exists i :: p.IsNode(i) && s.epochs[i] == k && p.graph.Reads(i, t)
  {
    if i :| p.IsNode(i) && s.epochs[i] == k && p.graph.Reads(i, t) {
      assert i in s.runs[s.epochs[i]];
    }
  }

  lemma RunsWriteByEpoch(p: Problem, s: Plan, tensorEpochs: seq<int>, k: int, t: int)
    requires p.WellFormed() && s.Consistent(p.Size()) && TensorsFollow(p, s, tensorEpochs) && 0 <= k < |s.runs|
    ensures RunWrites(p, s.runs[k], t) <==> p.graph.IsTensor(t) && tensorEpochs[t] == k
  {
    if i :| i in s.runs[k] && p.IsNode(i) && p.graph.Writes(i, t) {
      var m :| 0 <= m < |p.graph.nodes[i].outputs| && p.graph.nodes[i].outputs[m] == t;
    }
    if p.graph.IsTensor(t) && tensorEpochs[t] == k {
      assert !Sourceless(p, t);
      var i :| p.IsNode(i) && p.graph.Writes(i, t);
      assert i in s.runs[s.epochs[i]];
    }
  }

  lemma ReadsAreTensors(p: Problem, i: int, t: int)
    requires p.WellFormed() && p.IsNode(i) && p.graph.Reads(i, t)
    ensures p.graph.IsTensor(t)
  {
    var m :| 0 <= m < |p.graph.nodes[i].inputs| && p.graph.nodes[i].inputs[m] == t;
  }

  lemma ImportsAreExact(p: Problem, s: Plan, tensorEpochs: seq<int>, k: int, t: int)
    requires p.WellFormed() && s.Consistent(p.Size()) && TensorsFollow(p, s, tensorEpochs) && 0 <= k < |s.runs|
    ensures Imports(p, s, tensorEpochs, k, t) <==> RunReads(p, s.runs[k], t) && !RunWrites(p, s.runs[k], t)
  {
    RunsReadByEpoch(p, s, k, t);
    RunsWriteByEpoch(p, s, tensorEpochs, k, t);
    if RunReads(p, s.runs[k], t) {
      var i :| i in s.runs[k] && p.IsNode(i) && p.graph.Reads(i, t);
      ReadsAreTensors(p, i, t);
    }
  }

  lemma ExportsAreExact(p: Problem, s: Plan, tensorEpochs: seq<int>, k: int, t: int)
    requires p.WellFormed() && s.Consistent(p.Size()) && TensorsFollow(p, s, tensorEpochs) && 0 <= k < |s.runs|
    ensures Exports(p, s, tensorEpochs, k, t) || Yields(p.graph.outputs, tensorEpochs, k, t) <==> Needed(p, s, k, t)
  {
    RunsWriteByEpoch(p, s, tensorEpochs, k, t);
    if i :| p.IsNode(i) && s.epochs[i] >= 0 && s.epochs[i] != k && p.graph.Reads(i, t) {
      RunsReadByEpoch(p, s, s.epochs[i], t);
    }
    if l :| 0 <= l < |s.runs| && l != k && RunReads(p, s.runs[l], t) {
      RunsReadByEpoch(p, s, l, t);
    }
  }

  lemma InterfacesAreExact(p: Problem, s: Plan, tensorEpochs: seq<int>, subsets: seq<NodeSubset>)
    requires p.WellFormed() && s.Consistent(p.Size()) && TensorsFollow(p, s, tensorEpochs) && NodesFollow(p, s, subsets)
    requires forall k :: 0 <= k < |subsets| ==>
      Sorted(subsets[k].inputTensors, Below) && Sorted(subsets[k].outputTensors, Below)
    requires forall k, t :: 0 <= k < |subsets| ==> (t in subsets[k].inputTensors <==> Imports(p, s, tensorEpochs, k, t))
    requires forall k, t :: 0 <= k < |subsets| ==>
      (t in subsets[k].outputTensors <==>
       Exports(p, s, tensorEpochs, k, t) || Yields(p.graph.outputs, tensorEpochs, k, t))
    ensures Describes(p, s, subsets)
  {
    forall k, t | 0 <= k < |subsets|
      ensures t in subsets[k].inputTensors <==> RunReads(p, s.runs[k], t) && !RunWrites(p, s.runs[k], t)
      ensures t in subsets[k].outputTensors <==> Needed(p, s, k, t)
    {
      ImportsAreExact(p, s, tensorEpochs, k, t);
      ExportsAreExact(p, s, tensorEpochs, k, t);
    }
  }

  function KindsOf(total: nat, nodesToPartition: seq<int>): (r: seq<Kind>)
    ensures |r| == total
  {
    seq(total, i => if i in nodesToPartition then Partition else NonPartition)
  }

  method NodeTypes(total: nat, nodesToPartition: seq<int>) returns (kinds: seq<Kind>)
    requires forall m :: 0 <= m < |nodesToPartition| ==> 0 <= nodesToPartition[m] < total
    ensures kinds == KindsOf(total, nodesToPartition)
  {
    kinds := seq(total, _ => NonPartition);
    for m := 0 to |nodesToPartition|
      invariant kinds == KindsOf(total, nodesToPartition[..m])
    {
      NamesOneMore(nodesToPartition, m);
      kinds := kinds[nodesToPartition[m] := Partition];
    }
    assert nodesToPartition[..|nodesToPartition|] == nodesToPartition;
  }

  /** The problem the constructor sets up: node types from the list of nodes to partition, sorted control edges. */
  function Prepared(info: Problem, nodesToPartition: seq<int>): Problem
    requires StrictOrder(EdgeBelow)
  {
    info.(kinds := KindsOf(|info.kinds|, nodesToPartition), edges := Uniquefy(info.edges, EdgeBelow))
  }

  lemma EdgesAreOrdered()
    ensures StrictOrder(EdgeBelow)
  {}

  lemma PreparedIsWellFormed(info: Problem, nodesToPartition: seq<int>)
    requires info.WellFormed() && info.OneProducer() && StrictOrder(EdgeBelow)
    ensures Prepared(info, nodesToPartition).WellFormed() && Prepared(info, nodesToPartition).OneProducer()
    ensures Sorted(Prepared(info, nodesToPartition).edges, EdgeBelow)
  {}

  // ----- the entry point -----

  /** Chains the operators that might have side effects, in their original order. */
  method SideEffectChain(g: Graph) returns (edges: seq<Edge>)
    ensures forall e :: e in edges <==> ConsecutiveStateful(g, e.before, e.after)
  {
    edges := [];
    var last := -1;
    for i := 0 to |g.nodes|
      invariant -1 <= last < i && (last != -1 ==> g.nodes[last].mightHaveSideEffect)
      invariant forall c :: last < c < i ==> !g.nodes[c].mightHaveSideEffect
      invariant forall e :: e in edges <==> ConsecutiveStateful(g, e.before, e.after) && e.after < i
    {
      if g.nodes[i].mightHaveSideEffect {
        ghost var before := edges;
        if last != -1 {
          edges := edges + [Edge(last, i)];
        }
        forall e
          ensures e in edges <==> ConsecutiveStateful(g, e.before, e.after) && e.after < i + 1
        {
          if ConsecutiveStateful(g, e.before, i) && last != -1 {
            assert e.before == last;
          }
        }
        last := i;
      }
    }
  }

  /** The control edges in force: those given, or, when none are given and partitioning is greedy, the chain of
      stateful nodes. */
  ghost predicate Controls(g: Graph, greedily: bool, controlEdges: Option<seq<Edge>>, e: Edge) {
    match controlEdges
    case Some(edges) => e in edges
    case None => greedily && ConsecutiveStateful(g, e.before, e.after)
  }

  /** Without explicit control edges a graph in dependency order has no cycle. */
  lemma ChainIsAcyclic(p: Problem)
    requires p.graph.DependencyOrder() && forall e :: e in p.edges ==> e.before < e.after
    ensures p.InOrder() && p.Acyclic()
  {
    var rank := seq(p.Size(), i => i);
    assert p.RankedBy(rank);
  }

  lemma SameDependencies(p: Problem, q: Problem)
    requires p.graph == q.graph && (forall e :: e in p.edges <==> e in q.edges) && p.Acyclic()
    ensures q.Acyclic()
  {
    var rank :| p.RankedBy(rank);
    forall i, j | q.DependsOn(i, j)
      ensures rank[j] < rank[i]
    {
      assert p.DependsOn(i, j);
    }
    assert q.RankedBy(rank);
  }

  lemma NothingIsBuilt(p: Problem)
    requires p.WellFormed()
    ensures Built(p, Plan(seq(p.Size(), _ => NOT_READY), []))
      && OriginalRuns(p, Plan(seq(p.Size(), _ => NOT_READY), []), 0)
  {}

  lemma NamesOneMore(ids: seq<int>, m: nat)
    requires m < |ids|
    ensures forall t :: t in ids[..m + 1] <==> t in ids[..m] || t == ids[m]
  {
    assert ids[..m + 1] == ids[..m] + [ids[m]];
  }

  lemma LeavesOnce(edges: seq<Edge>, start: nat, k: nat)
    requires Sorted(edges, EdgeBelow) && start <= k < |edges|
    ensures edges[start..k + 1] == edges[start..k] + [edges[k]] && edges[k] !in edges[start..k]
  {}

  /** The edges that leave node `i` are those from the lower bound of (i, 0) to the first that leaves another node. */
  lemma EdgesOfAreTogether(p: Problem, i: int, start: nat, end: nat)
    requires p.WellFormed() && Sorted(p.edges, EdgeBelow) && start <= end <= |p.edges|
    requires forall k :: 0 <= k < |p.edges| ==> (k < start <==> EdgeBelow(p.edges[k], Edge(i, 0)))
    requires end < |p.edges| ==> p.edges[end].before != i
    ensures forall x :: Edge(i, x) in p.edges <==> Edge(i, x) in p.edges[start..end]
  {
    forall k | end <= k < |p.edges|
      ensures p.edges[k].before > i
    {
      assert !EdgeBelow(p.edges[end], Edge(i, 0));
      if end < k {
        assert EdgeBelow(p.edges[end], p.edges[k]);
      }
    }
    forall x | Edge(i, x) in p.edges
      ensures Edge(i, x) in p.edges[start..end]
    {
      var m :| 0 <= m < |p.edges| && p.edges[m] == Edge(i, x);
      assert p.edges[start..end][m - start] == p.edges[m];
    }
  }

  // ----- the partitioner -----

  class Partitioner {
    const problem: Problem
    var subsets: seq<NodeSubset>
    var nodeEpochs: seq<int>
    var tensorEpochs: seq<int>
    var incoming: seq<int>
    ghost var plan: Plan

    /** The problem is one the source accepts; its control edges are sorted. */
    ghost predicate Ready() {
      problem.WellFormed() && problem.OneProducer() && Sorted(problem.edges, EdgeBelow)
    }

    /** The member variables agree with the schedule built so far. */
    ghost predicate Tracks()
      reads this
      requires Ready()
    {
      && plan.Consistent(problem.Size()) && nodeEpochs == plan.epochs
      && TensorsFollow(problem, plan, tensorEpochs)
      && CountsFollow(problem, plan, incoming)
      && SubsetsFollow(problem, plan, tensorEpochs, subsets)
    }

    /** All inputs of the node are assigned to epochs. */
    method InputsAreAssigned(i: int) returns (all: bool)
      requires Ready() && problem.IsNode(i) && |tensorEpochs| == |problem.graph.tensors|
      ensures all <==> forall t :: problem.graph.IsTensor(t) && problem.graph.Reads(i, t) ==>
        tensorEpochs[t] != NOT_READY
    {
      var inputs := problem.graph.nodes[i].inputs;
      for k := 0 to |inputs|
        invariant forall j :: 0 <= j < k && inputs[j] != OPTIONAL ==> tensorEpochs[inputs[j]] != NOT_READY
      {
        if inputs[k] != OPTIONAL && tensorEpochs[inputs[k]] == NOT_READY {
          assert problem.graph.Reads(i, inputs[k]);
          return false;
        }
      }
      return true;
    }

    method AssignOutputs(i: int, epoch: int)
      requires Ready() && problem.IsNode(i) && |tensorEpochs| == |problem.graph.tensors|
      modifies `tensorEpochs
      ensures Moved(problem.graph, i, epoch, old(tensorEpochs), tensorEpochs)
    {
      var outputs := problem.graph.nodes[i].outputs;
      for k := 0 to |outputs|
        invariant |tensorEpochs| == |old(tensorEpochs)|
        invariant forall t :: problem.graph.IsTensor(t) ==>
          tensorEpochs[t] == if t in outputs[..k] then epoch else old(tensorEpochs[t])
      {
        if outputs[k] != OPTIONAL {
          tensorEpochs := tensorEpochs[outputs[k] := epoch];
        }
      }
      assert outputs[..|outputs|] == outputs;
    }

    /** Records one input: when it comes from elsewhere it is an input of the current subset, and an output of the
        subset it comes from. */
    method RecordInput(t: int, epoch: int)
      requires Ready() && problem.graph.IsTensor(t) && |tensorEpochs| == |problem.graph.tensors|
        && 0 <= epoch < |subsets| && tensorEpochs[t] < |subsets|
      modifies `subsets
      ensures |subsets| == |old(subsets)|
      ensures forall k :: 0 <= k < |subsets| ==>
        subsets[k].nodes == old(subsets)[k].nodes && subsets[k].kind == old(subsets)[k].kind
      ensures forall k, u :: 0 <= k < |subsets| ==>
        (u in subsets[k].inputTensors <==>
         u in old(subsets)[k].inputTensors || (u == t && k == epoch && tensorEpochs[t] != k))
      ensures forall k, u :: 0 <= k < |subsets| ==>
        (u in subsets[k].outputTensors <==>
         u in old(subsets)[k].outputTensors || (u == t && k != epoch && tensorEpochs[t] == k))
    {
      var from := tensorEpochs[t];
      if from != epoch {
        subsets := subsets[epoch := subsets[epoch].(inputTensors := subsets[epoch].inputTensors + [t])];
        if from >= 0 {
          subsets := subsets[from := subsets[from].(outputTensors := subsets[from].outputTensors + [t])];
        }
      }
    }

    method RecordInputs(i: int, epoch: int)
      requires Ready() && problem.IsNode(i) && |tensorEpochs| == |problem.graph.tensors| && 0 <= epoch < |subsets|
      requires forall t :: problem.graph.IsTensor(t) ==> tensorEpochs[t] < |subsets|
      modifies `subsets
      ensures Recorded(problem.graph.nodes[i].inputs, tensorEpochs, epoch, old(subsets), subsets)
    {
      var inputs := problem.graph.nodes[i].inputs;
      ghost var before, te := subsets, tensorEpochs;
      for m := 0 to |inputs|
        invariant tensorEpochs == te && Recorded(inputs[..m], te, epoch, before, subsets)
      {
        NamesOneMore(inputs, m);
        if inputs[m] != OPTIONAL {
          RecordInput(inputs[m], epoch);
        }
      }
      assert inputs[..|inputs|] == inputs;
    }

    /** The first control edge that is not below `key`, by bisection. */
    method LowerBound(key: Edge) returns (lo: nat)
      requires Ready()
      ensures lo <= |problem.edges|
      ensures forall k :: 0 <= k < |problem.edges| ==> (k < lo <==> EdgeBelow(problem.edges[k], key))
    {
      lo := 0;
      var hi := |problem.edges|;
      while lo < hi
        invariant lo <= hi <= |problem.edges|
        invariant forall k :: 0 <= k < lo ==> EdgeBelow(problem.edges[k], key)
        invariant forall k :: hi <= k < |problem.edges| ==> !EdgeBelow(problem.edges[k], key)
      {
        var mid := (lo + hi) / 2;
        if EdgeBelow(problem.edges[mid], key) {
          lo := mid + 1;
        } else {
          hi := mid;
        }
      }
    }

    /** Removes node `i` as a precondition from the nodes its control edges lead to. */
    method ReleaseDependents(i: int)
      requires Ready() && problem.IsNode(i) && |incoming| == problem.Size()
      modifies `incoming
      ensures Released(problem, i, old(incoming), incoming)
    {
      var edges := problem.edges;
      var start := LowerBound(Edge(i, 0));
      var k := start;
      while k < |edges| && edges[k].before == i
        invariant start <= k <= |edges| && |incoming| == |old(incoming)|
        invariant forall m :: start <= m < k ==> edges[m].before == i
        invariant forall x :: problem.IsNode(x) ==>
          incoming[x] == old(incoming)[x] - if Edge(i, x) in edges[start..k] then 1 else 0
      {
        LeavesOnce(edges, start, k);
        assert edges[k] in edges;
        incoming := incoming[edges[k].after := incoming[edges[k].after] - 1];
        k := k + 1;
      }
      EdgesOfAreTogether(problem, i, start, k);
    }

    /** Assigns a node of the type of the last subset to the last epoch; `before` is the subsets before that type was
        set. */
    method AssignNode(i: int, ghost before: seq<NodeSubset>)
      requires Ready() && problem.IsNode(i) && Legal(problem, plan) && |plan.runs| > 0 && CanJoin(problem, plan, i)
      requires nodeEpochs == plan.epochs && TensorsFollow(problem, plan, tensorEpochs)
        && CountsFollow(problem, plan, incoming)
      requires SubsetsFollow(problem, plan, tensorEpochs, before)
      requires subsets == before[|before| - 1 := before[|before| - 1].(kind := problem.KindOf(i))]
      modifies this
      ensures Tracks()
      ensures plan == old(plan).Join(i)
    {
      assert plan.Consistent(problem.Size()) && |problem.nodeIndex| == problem.Size()
          && |plan.epochs| == problem.Size();
      assert |incoming| == problem.Size() && |tensorEpochs| == |problem.graph.tensors| && |before| == |plan.runs|;
      assert plan.epochs[i] == NOT_READY;
      hide Enters;
      hide Leaves;
      hide Plan.Join;
      hide Sorted;
      hide Pending;
      hide Problem.WellFormed;
      hide Problem.OneProducer;
      hide CanJoin;
      hide Legal;
      hide Plan.Consistent;
      hide CountsFollow;
      hide TensorsFollow;
      hide SubsetsFollow;
      hide Moved;
      hide Recorded;
      hide Released;
      var epoch := |subsets| - 1;
      nodeEpochs := nodeEpochs[i := epoch];
      subsets := subsets[epoch := subsets[epoch].(nodes := subsets[epoch].nodes + [problem.nodeIndex[i]])];
      ghost var s, epochs, counts, marked := plan, tensorEpochs, incoming, subsets;
      AssignOutputs(i, epoch);
      MovedIsBounded(problem, s, i, epochs, tensorEpochs);
      RecordInputs(i, epoch);
      ReleaseDependents(i);
      plan := plan.Join(i);
      JoinMovesOutputs(problem, s, i, epochs, tensorEpochs);
      JoinExtendsSubsets(problem, s, i, epochs, tensorEpochs, before, marked, subsets);
      JoinReleases(problem, s, i, counts, incoming);
    }

    /** Assigns the node to the last epoch if that is allowed now. */
    method UpdateNode(i: int) returns (joined: bool)
      requires Ready() && Tracks() && Legal(problem, plan) && |plan.runs| > 0 && problem.IsNode(i)
      modifies this
      ensures Tracks()
      ensures joined <==> CanJoin(problem, old(plan), i)
      ensures plan == if joined then old(plan).Join(i) else old(plan)
    {
      var current := |subsets| - 1;
      if problem.disableNodeFusion && subsets[current].nodes != [] {
        return false;
      }
      if nodeEpochs[i] != NOT_READY {
        return false;
      }
      ReadinessIsTested(problem, plan, tensorEpochs, incoming, i);
      var ready := InputsAreAssigned(i);
      if !ready || incoming[i] != 0 {
        return false;
      }
      var original := problem.nodeIndex[i];
      var kind := problem.kinds[original];
      ghost var before := subsets;
      if subsets[current].kind == Unexplored {
        subsets := subsets[current := subsets[current].(kind := kind)];
      }
      if subsets[current].kind != kind {
        return false;
      }
      AssignNode(i, before);
      return true;
    }

    method OpenSubset()
      requires Ready() && Tracks() && Built(problem, plan)
      modifies this
      ensures Tracks() && plan == old(plan).Opened()
    {
      assert plan.Consistent(problem.Size());
      hide Problem.WellFormed;
      hide Problem.OneProducer;
      hide Built;
      hide Plan.Consistent;
      hide SubsetsFollow;
      OpenedKeepsSubsets(problem, plan, tensorEpochs, subsets);
      subsets := subsets + [NodeSubset(Unexplored, [], [], [])];
      plan := plan.Opened();
    }

    /** Fills a new subset with every node that can join it, or, when not greedy, with the first that can and
        those right behind it. In a mode that keeps a dependency order, `d` nodes are assigned before. */
    method BuildNodeSubset(ghost d: int)
      requires Ready() && Tracks() && Built(problem, plan)
      requires Ordered(problem) ==> OriginalRuns(problem, plan, d)
      modifies this
      ensures Tracks() && Finished(problem, old(plan), plan, d)
    {
      hide Problem.WellFormed;
      hide Problem.OneProducer;
      hide Tracks;
      hide Built;
      hide BetweenRounds;
      hide InRound;
      hide Finished;
      hide Legal;
      hide CanJoin;
      hide Ordered;
      ghost var start := plan;
      OpenedIsBetweenRounds(problem, plan, d);
      OpenSubset();
      while true
        invariant Tracks() && BetweenRounds(problem, start, plan, d)
        decreases |plan.Waiting()|
      {
        var didSomething := false;
        ghost var r := plan;
        RoundBegins(problem, start, plan, d);
        for i := 0 to |problem.graph.nodes|
          invariant Tracks() && InRound(problem, start, r, plan, d, didSomething, i)
        {
          InRoundIsLegal(problem, start, r, plan, d, didSomething, i);
          ghost var before := plan;
          var joined := UpdateNode(i);
          if joined {
            NodeJoins(problem, start, r, before, d, didSomething, i);
            didSomething := true;
          } else {
            if didSomething && !problem.greedily {
              RoundStops(problem, start, r, plan, d, i);
              return;
            }
            NodeIsPassed(problem, start, r, plan, d, didSomething, i);
          }
        }
        if !didSomething {
          IdleRoundEnds(problem, start, r, plan, d);
          return;
        }
        RoundEnds(problem, start, r, plan, d);
      }
    }

    constructor (info: Problem, nodesToPartition: seq<int>)
      requires info.WellFormed() && info.OneProducer()
      requires forall m :: 0 <= m < |nodesToPartition| ==> 0 <= nodesToPartition[m] < |info.kinds|
      ensures Ready() && problem == Prepared(info, nodesToPartition)
    {
      EdgesAreOrdered();
      var kinds := NodeTypes(|info.kinds|, nodesToPartition);
      problem := info.(kinds := kinds, edges := Uniquefy(info.edges, EdgeBelow));
      subsets, nodeEpochs, tensorEpochs, incoming := [], [], [], [];
      plan := Plan([], []);
      PreparedIsWellFormed(info, nodesToPartition);
    }

    /** Counts the control edges into each node. */
    method CountEdges()
      requires Ready()
      modifies `incoming
      ensures |incoming| == problem.Size()
      ensures forall x :: problem.IsNode(x) ==>
        incoming[x] == Pending(problem.edges, seq(problem.Size(), _ => NOT_READY), x)
    {
      hide Problem.OneProducer;
      hide Graph.WellIndexed;
      hide Sorted;
      var edges := problem.edges;
      ghost var epochs := seq(problem.Size(), _ => NOT_READY);
      incoming := seq(|problem.graph.nodes|, _ => 0);
      assert edges[..|edges|] == edges;
      for k := 0 to |edges|
        invariant |incoming| == problem.Size()
        invariant forall x :: problem.IsNode(x) ==> incoming[x] == Pending(edges[..k], epochs, x)
      {
        var e := edges[k];
        assert e in edges;
        assert edges[..k + 1][..k] == edges[..k] && edges[..k + 1][k] == e;
        incoming := incoming[e.after := incoming[e.after] + 1];
      }
    }

    /** Forgets any earlier partitioning: no node has an epoch and every written tensor waits for its node. */
    method Reset()
      requires Ready()
      modifies this
      ensures Tracks() && plan == Plan(seq(problem.Size(), _ => NOT_READY), [])
    {
      subsets := [];
      tensorEpochs := seq(|problem.graph.tensors|, _ => ALWAYS_READY);
      nodeEpochs := seq(|problem.graph.nodes|, _ => NOT_READY);
      CountEdges();
      for i := 0 to |problem.graph.nodes|
        invariant |tensorEpochs| == |problem.graph.tensors|
        invariant forall j, t :: 0 <= j < i && problem.graph.IsTensor(t) && problem.graph.Writes(j, t) ==>
          tensorEpochs[t] == NOT_READY
        invariant forall t :: problem.graph.IsTensor(t) && Sourceless(problem, t) ==> tensorEpochs[t] == ALWAYS_READY
        invariant subsets == [] && nodeEpochs == seq(problem.Size(), _ => NOT_READY) && |incoming| == problem.Size()
        invariant forall x :: problem.IsNode(x) ==>
          incoming[x] == Pending(problem.edges, seq(problem.Size(), _ => NOT_READY), x)
      {
        AssignOutputs(i, NOT_READY);
      }
      plan := Plan(seq(problem.Size(), _ => NOT_READY), []);
    }

    /** Drops the last, empty subset. */
    method DropEmptySubset(ghost before: Plan)
      requires Ready() && Tracks() && Built(problem, before) && plan == before.Opened()
      modifies this
      ensures Tracks() && plan == before
    {
      assert before.Consistent(problem.Size());
      hide Problem.WellFormed;
      hide Problem.OneProducer;
      hide Built;
      hide Plan.Consistent;
      hide SubsetsFollow;
      ClosedKeepsSubsets(problem, before, tensorEpochs, subsets);
      subsets := subsets[..|subsets| - 1];
      plan := before;
    }

    /** Builds subsets until nothing is left to assign. */
    method BuildNodeSubsets()
      requires Ready()
      modifies this
      ensures Tracks() && PartitionOf(problem, plan)
    {
      hide Problem.WellFormed;
      hide Problem.OneProducer;
      hide Tracks;
      hide Finished;
      hide Built;
      hide PartitionOf;
      hide OriginalRuns;
      Reset();
      ghost var d := 0;
      NothingIsBuilt(problem);
      while true
        invariant Tracks() && Built(problem, plan) && plan.Consistent(problem.Size())
        invariant Ordered(problem) ==> OriginalRuns(problem, plan, d)
        decreases |plan.Waiting()|
      {
        ghost var before := plan;
        BuildNodeSubset(d);
        FinishedHasLast(problem, before, plan, d);
        LastSubsetIsLastRun();
        if LastIsEmpty() {
          NothingWasAdded(problem, before, plan, d);
          DropEmptySubset(before);
          return;
        }
        SomethingWasAdded(problem, before, plan, d);
        d := d + |plan.Last()|;
      }
    }

    lemma LastSubsetIsLastRun()
      requires Ready() && Tracks() && |plan.runs| > 0
      ensures |subsets| == |plan.runs| && (LastIsEmpty() <==> plan.Last() == [])
    {}

    predicate LastIsEmpty()
      reads this
      requires |subsets| > 0
    {
      subsets[|subsets| - 1].nodes == []
    }

    /** Adds the graph outputs to the outputs of the subsets that produce them. */
    method MarkOutputs()
      requires Ready() && Tracks() && (forall i :: problem.IsNode(i) ==> plan.epochs[i] != NOT_READY)
      modifies `subsets
      ensures NodesFollow(problem, plan, subsets)
      ensures forall k, t :: 0 <= k < |subsets| ==>
        (t in subsets[k].inputTensors <==> Imports(problem, plan, tensorEpochs, k, t))
      ensures forall k, t :: 0 <= k < |subsets| ==>
        (t in subsets[k].outputTensors <==>
         Exports(problem, plan, tensorEpochs, k, t) || Yields(problem.graph.outputs, tensorEpochs, k, t))
    {
      hide Problem.WellFormed;
      hide Problem.OneProducer;
      OutputsAreTensors(problem);
      AllHaveEpochs(problem, plan, tensorEpochs);
      hide TensorsFollow;
      hide Imports;
      hide Exports;
      var outputs := problem.graph.outputs;
      ghost var before, te := subsets, tensorEpochs;
      for m := 0 to |outputs|
        invariant |subsets| == |before| && tensorEpochs == te
        invariant forall k :: 0 <= k < |subsets| ==>
          subsets[k].nodes == before[k].nodes && subsets[k].kind == before[k].kind
        invariant forall k :: 0 <= k < |subsets| ==> subsets[k].inputTensors == before[k].inputTensors
        invariant forall k, t :: 0 <= k < |subsets| ==>
          (t in subsets[k].outputTensors <==> t in before[k].outputTensors || Yields(outputs[..m], te, k, t))
      {
        NamesOneMore(outputs, m);
        var epoch := tensorEpochs[outputs[m]];
        if epoch != ALWAYS_READY {
          subsets := subsets[epoch := subsets[epoch].(outputTensors := subsets[epoch].outputTensors + [outputs[m]])];
        }
      }
      assert outputs[..|outputs|] == outputs;
    }

    /** Sorts the inputs and outputs of every subset and removes their duplicates. */
    method UniquefyInterfaces()
      modifies `subsets
      ensures |subsets| == |old(subsets)|
      ensures forall k :: 0 <= k < |subsets| ==>
        subsets[k].nodes == old(subsets)[k].nodes && subsets[k].kind == old(subsets)[k].kind
      ensures forall k :: 0 <= k < |subsets| ==>
        Sorted(subsets[k].inputTensors, Below) && Sorted(subsets[k].outputTensors, Below)
      ensures forall k, t :: 0 <= k < |subsets| ==>
        (t in subsets[k].inputTensors <==> t in old(subsets)[k].inputTensors)
      ensures forall k, t :: 0 <= k < |subsets| ==>
        (t in subsets[k].outputTensors <==> t in old(subsets)[k].outputTensors)
    {
      ghost var before := subsets;
      for m := 0 to |subsets|
        invariant |subsets| == |before|
        invariant forall k :: 0 <= k < |subsets| ==>
          subsets[k].nodes == before[k].nodes && subsets[k].kind == before[k].kind
        invariant forall k :: 0 <= k < m ==>
          Sorted(subsets[k].inputTensors, Below) && Sorted(subsets[k].outputTensors, Below)
        invariant forall k :: m <= k < |subsets| ==> subsets[k] == before[k]
        invariant forall k, t :: 0 <= k < |subsets| ==> (t in subsets[k].inputTensors <==> t in before[k].inputTensors)
        invariant forall k, t :: 0 <= k < |subsets| ==>
          (t in subsets[k].outputTensors <==> t in before[k].outputTensors)
      {
        var inputTensors := Uniquefy(subsets[m].inputTensors, Below);
        var outputTensors := Uniquefy(subsets[m].outputTensors, Below);
        subsets := subsets[m := subsets[m].(inputTensors := inputTensors, outputTensors := outputTensors)];
      }
    }

    /** Partitions the graph. */
    method Partition()
      requires Ready() && problem.Acyclic()
      modifies this
      ensures PartitionOf(problem, plan) && Describes(problem, plan, subsets)
    {
      hide Problem.WellFormed;
      hide Problem.OneProducer;
      hide Built;
      hide Stuck;
      BuildNodeSubsets();
      EveryNodeHasAnEpoch(problem, plan);
      MarkOutputs();
      UniquefyInterfaces();
      InterfacesAreExact(problem, plan, tensorEpochs, subsets);
    }
  }

  /** Partitions the execution plan of a graph. The subsets describe a plan `s` for the problem `p` that the
      arguments pose; it schedules every node exactly once and after everything it depends on. */
  method PartitionGraphIntoIndependentNodeSubsets(info: Problem, nodesToPartition: seq<int>,
                                                  controlEdges: Option<seq<Edge>>)
    returns (subsets: seq<NodeSubset>, ghost p: Problem, ghost s: Plan)
    requires info.WellFormed() && info.OneProducer()
    requires forall m :: 0 <= m < |nodesToPartition| ==> 0 <= nodesToPartition[m] < |info.kinds|
    requires match controlEdges
      case Some(edges) => info.edges == edges && info.Acyclic()
      case None => info.edges == [] && info.graph.DependencyOrder()
    ensures p == info.(kinds := KindsOf(|info.kinds|, nodesToPartition), edges := p.edges) && p.WellFormed()
    ensures forall e :: e in p.edges <==> Controls(info.graph, info.greedily, controlEdges, e)
    ensures PartitionOf(p, s) && Describes(p, s, subsets) && p.Acyclic()
    ensures Respects(p, Flatten(s.runs)) && forall i :: p.IsNode(i) ==> i in Flatten(s.runs)
    ensures info.greedily && controlEdges.None? ==>
      var stateful := Stateful(p.graph, Flatten(s.runs)); forall q, r :: 0 <= q < r < |stateful| ==>
          stateful[q] < stateful[r]
  {
    hide PartitionOf;
    hide Describes;
    var edges := info.edges;
    if controlEdges.None? && info.greedily {
      edges := SideEffectChain(info.graph);
    }
    var posed := info.(edges := edges);
    var partitioner := new Partitioner(posed, nodesToPartition);
    p := partitioner.problem;
    if controlEdges.None? {
      ChainIsAcyclic(p);
    } else {
      SameDependencies(info, p);
    }
    partitioner.Partition();
    subsets, s := partitioner.subsets, partitioner.plan;
    EveryNodeIsScheduledIffAcyclic(p, s);
    if info.greedily && controlEdges.None? {
      forall a, b | ConsecutiveStateful(p.graph, a, b)
        ensures Edge(a, b) in p.edges
      {
        assert Edge(a, b) in edges;
      }
      StatefulNodesKeepTheirOrder(p, s);
    }
  }
}
