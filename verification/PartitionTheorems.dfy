/** What follows for any outcome of partitioning: completeness, order, alternation and optimality. */
module PartitionTheorems {
  import opened Graphs
  import opened GraphExecution
  import opened Partitions

  // ----- the order the subsets run in -----

  function Flatten(runs: seq<seq<int>>): seq<int> {
    if runs == [] then [] else Flatten(runs[..|runs| - 1]) + runs[|runs| - 1]
  }

  /** No node runs twice, and each runs after all it depends on. */
  ghost predicate Respects(p: Problem, order: seq<int>) {
    && (forall q :: 0 <= q < |order| ==> p.IsNode(order[q]))
    && (forall q, r :: 0 <= q < r < |order| ==> order[q] != order[r])
    && (forall q, j :: 0 <= q < |order| && p.DependsOn(order[q], j) ==> j in order[..q])
  }

  /** The first `k` subsets, run one after the other, hold the nodes of the first `k` epochs in an order that respects
      all dependencies. */
  lemma {:induction false} PrefixRespects(p: Problem, s: Plan, k: nat)
    requires p.WellFormed() && Legal(p, s) && k <= |s.runs|
    ensures Respects(p, Flatten(s.runs[..k]))
    ensures forall i :: i in Flatten(s.runs[..k]) <==> s.By(i, k - 1)
  {
    hide Problem.WellFormed;
    hide Problem.DependsOn;
    if k > 0 {
      PrefixRespects(p, s, k - 1);
      var before, run := Flatten(s.runs[..k - 1]), s.runs[k - 1];
      assert s.runs[..k][..k - 1] == s.runs[..k - 1];
      assert Flatten(s.runs[..k]) == before + run;
      RunExtends(p, s, k - 1, before);
    }
  }

  lemma RunExtends(p: Problem, s: Plan, k: nat, before: seq<int>)
    requires p.WellFormed() && Legal(p, s) && k < |s.runs| && Respects(p, before)
    requires forall i :: i in before <==> s.By(i, k - 1)
    ensures Respects(p, before + s.runs[k])
    ensures forall i :: i in before + s.runs[k] <==> s.By(i, k)
  {
    hide Problem.WellFormed;
    hide Problem.DependsOn;
    hide Problem.KindOf;
    var run := s.runs[k];
    var order := before + run;
    forall i
      ensures i in order <==> s.By(i, k)
    {
      RunIsItsEpoch(s, p.Size(), k, i);
    }
    forall q, r | 0 <= q < r < |order|
      ensures order[q] != order[r]
    {
      if q < |before| <= r {
        assert order[q] in before && s.epochs[run[r - |before|]] == k;
      }
    }
    forall q, j | 0 <= q < |order| && p.DependsOn(order[q], j)
      ensures j in order[..q]
    {
      if q < |before| {
        assert order[..q] == before[..q];
      } else {
        var m := q - |before|;
        assert order[..q] == before + run[..m];
        assert s.By(j, k - 1) || j in run[..m];
      }
    }
  }

  lemma RunIsItsEpoch(s: Plan, n: nat, k: nat, i: int)
    requires s.Consistent(n) && k < |s.runs|
    ensures i in s.runs[k] <==> 0 <= i < n && s.epochs[i] == k
  {
    assert 0 <= i < n && s.epochs[i] == k ==> i in s.runs[s.epochs[i]];
  }

  // ----- completeness -----

  lemma {:induction false} RankedIsAssigned(p: Problem, s: Plan, rank: seq<nat>, i: int)
    requires p.WellFormed() && PartitionOf(p, s) && p.RankedBy(rank) && p.IsNode(i)
    ensures s.epochs[i] != NOT_READY
    decreases rank[i]
  {
    forall j | p.DependsOn(i, j)
      ensures s.By(j, |s.runs| - 1)
    {
      RankedIsAssigned(p, s, rank, j);
    }
  }

  function IndexOf(order: seq<int>, i: int): (k: nat)
    requires i in order
    ensures k < |order| && order[k] == i
  {
    if order[0] == i then 0 else 1 + IndexOf(order[1..], i)
  }

  lemma AcyclicIsScheduled(p: Problem, s: Plan, i: int)
    requires p.WellFormed() && PartitionOf(p, s) && p.Acyclic() && p.IsNode(i)
    ensures s.By(i, |s.runs| - 1)
  {
    var rank :| p.RankedBy(rank);
    RankedIsAssigned(p, s, rank, i);
  }

  lemma ScheduledIsAcyclic(p: Problem, order: seq<int>)
    requires Respects(p, order) && forall i :: p.IsNode(i) ==> i in order
    ensures p.Acyclic()
  {
    var rank := seq(p.Size(), i requires i in order => IndexOf(order, i));
    forall i, j | p.DependsOn(i, j)
      ensures rank[j] < rank[i]
    {
      assert order[rank[i]] == i && order[rank[j]] == j;
      assert j in order[..rank[i]];
    }
    assert p.RankedBy(rank);
  }

  /** Every node is scheduled exactly once, in an order that respects all dependencies, if and only if they have no
      cycle. */
  lemma EveryNodeIsScheduledIffAcyclic(p: Problem, s: Plan)
    requires p.WellFormed() && PartitionOf(p, s)
    ensures Respects(p, Flatten(s.runs))
    ensures (forall i :: p.IsNode(i) ==> i in Flatten(s.runs)) <==> p.Acyclic()
  {
    var order := Flatten(s.runs);
    assert s.runs[..|s.runs|] == s.runs;
    PrefixRespects(p, s, |s.runs|);
    hide Problem.WellFormed;
    hide PartitionOf;
    hide Problem.Acyclic;
    hide Respects;
    if p.Acyclic() {
      forall i | p.IsNode(i)
        ensures i in order
      {
        AcyclicIsScheduled(p, s, i);
      }
    }
    if forall i :: p.IsNode(i) ==> i in order {
      ScheduledIsAcyclic(p, order);
    }
  }

  /** Running the subsets one after the other computes, in every tensor, what the original plan computes. */
  lemma PartitionPreservesValues(p: Problem, s: Plan, kernel: Kernel, store: Store)
    requires p.WellFormed() && PartitionOf(p, s) && p.Acyclic()
    requires Dataflow(p.graph) && WellSized(p.graph, kernel) && |store| == |p.graph.tensors|
    ensures Schedules(p.graph, Flatten(s.runs))
    ensures RunOrder(p.graph, kernel, store, Flatten(s.runs)) == RunPrivately(p.graph, kernel, store, p.Size())
  {
    EveryNodeIsScheduledIffAcyclic(p, s);
    var order := Flatten(s.runs);
    forall q, j, t | 0 <= q < |order| && 0 <= j < p.Size() && p.graph.Reads(order[q], t) && p.graph.Writes(j, t)
      ensures j in order[..q]
    {
      assert p.DependsOn(order[q], j);
    }
    AnyScheduleComputesTheSame(p.graph, kernel, store, order);
  }

  // ----- greedy partitioning -----

  function TypeOf(p: Problem, s: Plan, k: int): Kind
    requires p.WellFormed() && s.Consistent(p.Size()) && 0 <= k < |s.runs| && s.runs[k] != []
  {
    p.KindOf(s.runs[k][0])
  }

  /** Greedy subsets alternate between the two types. */
  lemma SubsetsAlternate(p: Problem, s: Plan, k: nat)
    requires p.WellFormed() && Built(p, s) && p.greedily && !p.disableNodeFusion && k + 1 < |s.runs|
    ensures TypeOf(p, s, k + 1) != TypeOf(p, s, k)
  {
    var i := s.runs[k + 1][0];
    assert s.epochs[i] == k + 1;
    forall j | p.DependsOn(i, j)
      ensures s.By(j, k)
    {
      assert j !in s.runs[k + 1][..0];
    }
    assert ReadyBy(p, s, i, k) && Saturated(p, s, k);
  }

  /** Any other way to cut the nodes into single-type subsets that can run one after the other; `kinds`
      gives the type of each subset and `epochs` the subset of each node. */
  datatype Rival = Rival(kinds: seq<Kind>, epochs: seq<nat>) {
    ghost predicate Valid(p: Problem)
      requires p.WellFormed()
    {
      && |epochs| == p.Size()
      && (forall k :: 0 <= k < |kinds| ==> kinds[k] != Unexplored)
      && (forall i :: p.IsNode(i) ==> epochs[i] < |kinds| && kinds[epochs[i]] == p.KindOf(i))
      && (forall i, j :: p.DependsOn(i, j) ==> epochs[j] <= epochs[i])
    }

    /** How often the type changes up to subset `k`. */
    function Changes(k: nat): (c: nat)
      requires k < |kinds|
      ensures c <= k
    {
      if k == 0 then 0 else Changes(k - 1) + if kinds[k] == kinds[k - 1] then 0 else 1
    }

    lemma {:induction false} ChangesGrow(j: nat, k: nat)
      requires j <= k < |kinds|
      ensures Changes(j) <= Changes(k)
    {
      if j < k {
        ChangesGrow(j, k - 1);
      }
    }
  }

  /** The rival starts with the other type, and so is one subset ahead. */
  function Lag(p: Problem, s: Plan, r: Rival): nat
    requires p.WellFormed() && s.Consistent(p.Size()) && |s.runs| > 0 && s.runs[0] != [] && |r.kinds| > 0
  {
    if r.kinds[0] == TypeOf(p, s, 0) then 0 else 1
  }

  lemma BuiltIsProper(p: Problem, s: Plan)
    requires p.WellFormed() && Built(p, s)
    ensures s.Consistent(p.Size()) && forall k :: 0 <= k < |s.runs| ==> s.runs[k] != [] && TypeOf(p, s, k) != Unexplored
  {}

  lemma {:induction false} RivalTypeIsGreedyType(p: Problem, s: Plan, r: Rival, k: nat)
    requires p.WellFormed() && Built(p, s) && p.greedily && !p.disableNodeFusion
    requires r.Valid(p) && k < |r.kinds| && |s.runs| > 0 && r.Changes(k) + Lag(p, s, r) < |s.runs|
    ensures TypeOf(p, s, r.Changes(k) + Lag(p, s, r)) == r.kinds[k]
  {
    hide Problem.WellFormed;
    hide Built;
    hide Plan.Consistent;
    hide TypeOf;
    BuiltIsProper(p, s);
    if k == 0 {
      if Lag(p, s, r) == 1 {
        SubsetsAlternate(p, s, 0);
      }
    } else {
      RivalTypeIsGreedyType(p, s, r, k - 1);
      if r.kinds[k] != r.kinds[k - 1] {
        SubsetsAlternate(p, s, r.Changes(k - 1) + Lag(p, s, r));
      }
    }
  }

  lemma {:induction false} GreedyIsAhead(p: Problem, s: Plan, r: Rival, rank: seq<nat>, i: int)
    requires p.WellFormed() && PartitionOf(p, s) && p.greedily && !p.disableNodeFusion && p.RankedBy(rank)
    requires r.Valid(p) && p.IsNode(i) && |s.runs| > 0
    ensures s.epochs[i] <= r.Changes(r.epochs[i]) + Lag(p, s, r)
    decreases rank[i]
  {
    var k := r.Changes(r.epochs[i]) + Lag(p, s, r);
    if k < |s.runs| {
      forall j | p.DependsOn(i, j)
        ensures s.By(j, k)
      {
        GreedyIsAhead(p, s, r, rank, j);
        r.ChangesGrow(r.epochs[j], r.epochs[i]);
        RankedIsAssigned(p, s, rank, j);
      }
      RivalTypeIsGreedyType(p, s, r, r.epochs[i]);
      assert ReadyBy(p, s, i, k) && Saturated(p, s, k);
    }
  }

  /** Greedy partitioning is optimal: against any rival that starts with the same type, every node is at least
      as early and there are at most as many subsets; a rival that starts with the other type gains at most one. */
  lemma GreedyIsOptimal(p: Problem, s: Plan, r: Rival)
    requires p.WellFormed() && PartitionOf(p, s) && p.greedily && !p.disableNodeFusion && p.Acyclic()
    requires r.Valid(p) && p.Size() > 0
    ensures |s.runs| > 0 && |r.kinds| > 0
    ensures forall i :: p.IsNode(i) ==> 0 <= s.epochs[i] <= r.epochs[i] + Lag(p, s, r)
    ensures |s.runs| <= |r.kinds| + Lag(p, s, r)
  {
    var rank :| p.RankedBy(rank);
    RankedIsAssigned(p, s, rank, 0);
    forall i | p.IsNode(i)
      ensures 0 <= s.epochs[i] <= r.epochs[i] + Lag(p, s, r)
    {
      RankedIsAssigned(p, s, rank, i);
      GreedyIsAhead(p, s, r, rank, i);
    }
    var last := s.runs[|s.runs| - 1][0];
    assert s.epochs[last] == |s.runs| - 1;
  }

  // ----- modes that keep the original order -----

  lemma {:induction false} RunNumberGrows(p: Problem, i: int, j: int)
    requires p.WellFormed() && 0 <= i <= j < p.Size()
    ensures p.RunNumber(i) <= p.RunNumber(j)
    decreases j
  {
    if i < j {
      RunNumberGrows(p, i, j - 1);
    }
  }

  function UpTo(n: nat): seq<int> { seq(n, i => i) }

  lemma InUpTo(n: nat, i: nat)
    requires i < n
    ensures i in UpTo(n)
  {
    assert UpTo(n)[i] == i;
  }

  lemma RunsRise(p: Problem, s: Plan, i: int, k: int)
    requires p.WellFormed() && Built(p, s) && OriginalRuns(p, s, p.Size()) && p.IsNode(i) && p.RunNumber(i) == k
    ensures k < |s.runs| && s.runs[k] != [] && s.runs[k][0] <= i
  {
    assert s.epochs[i] == p.RunNumber(i);
    var run := s.runs[s.epochs[i]];
    assert i in run;
    var m :| 0 <= m < |run| && run[m] == i;
  }

  lemma RunNumberOf(p: Problem, s: Plan, i: int)
    requires p.WellFormed() && Built(p, s) && OriginalRuns(p, s, p.Size()) && p.IsNode(i)
    ensures |s.epochs| == p.Size() && s.epochs[i] == p.RunNumber(i)
  {}

  lemma FirstOfRun(p: Problem, s: Plan, k: int)
    requires p.WellFormed() && Built(p, s) && 0 <= k < |s.runs|
    ensures s.runs[k] != [] && p.IsNode(s.runs[k][0]) && s.epochs[s.runs[k][0]] == k
  {}

  /** If the earlier runs hold the first nodes, the next run starts with the node after them. */
  lemma RunStartsNext(p: Problem, s: Plan, k: int, before: seq<int>)
    requires p.WellFormed() && Built(p, s) && OriginalRuns(p, s, p.Size()) && 0 <= k + 1 < |s.runs|
    requires before == UpTo(|before|) && forall i :: i in before <==> s.By(i, k)
    ensures s.runs[k + 1][0] == |before|
  {
    hide Problem.WellFormed;
    hide Built;
    hide OriginalRuns;
    hide Problem.RunNumber;
    FirstOfRun(p, s, k + 1);
    var m, i := |before|, s.runs[k + 1][0];
    RunNumberOf(p, s, i);
    if i < m {
      InUpTo(m, i);
    }
    if m < i {
      RunNumberOf(p, s, m);
      RunNumberGrows(p, m, i);
      assert m !in before;
      RunsRise(p, s, m, k + 1);
    }
  }

  lemma RunContinues(p: Problem, s: Plan, k: int, before: seq<int>)
    requires p.WellFormed() && Built(p, s) && OriginalRuns(p, s, p.Size()) && 0 <= k + 1 < |s.runs|
    requires before == UpTo(|before|) && forall i :: i in before <==> s.By(i, k)
    ensures before + s.runs[k + 1] == UpTo(|before + s.runs[k + 1]|)
  {
    hide Problem.WellFormed;
    hide Built;
    hide Problem.RunNumber;
    RunStartsNext(p, s, k, before);
    var run := s.runs[k + 1];
    assert forall m :: 0 <= m < |run| ==> run[m] == run[0] + m;
  }

  lemma {:induction false} PrefixKeepsOrder(p: Problem, s: Plan, k: nat)
    requires p.WellFormed() && Built(p, s) && OriginalRuns(p, s, p.Size()) && k <= |s.runs|
    ensures Flatten(s.runs[..k]) == UpTo(|Flatten(s.runs[..k])|)
  {
    if k > 0 {
      PrefixKeepsOrder(p, s, k - 1);
      PrefixRespects(p, s, k - 1);
      hide Problem.WellFormed;
      hide Built;
      hide OriginalRuns;
      hide Respects;
      hide UpTo;
      assert s.runs[..k][..k - 1] == s.runs[..k - 1];
      RunContinues(p, s, k - 2, Flatten(s.runs[..k - 1]));
    }
  }

  lemma AllAreAssigned(p: Problem, s: Plan, i: int)
    requires p.WellFormed() && Legal(p, s) && OriginalRuns(p, s, p.Size()) && p.IsNode(i)
    ensures s.By(i, |s.runs| - 1)
  {
    assert s.epochs[i] == p.RunNumber(i);
  }

  lemma UpToAll(order: seq<int>, n: nat)
    requires order == UpTo(|order|) && forall i :: i in order <==> 0 <= i < n
    ensures |order| == n
  {
    assert |order| > 0 ==> order[|order| - 1] in order;
    assert |order| !in order;
  }

  lemma FlattenKeepsOrder(p: Problem, s: Plan)
    requires p.WellFormed() && Built(p, s) && OriginalRuns(p, s, p.Size())
    ensures Flatten(s.runs) == UpTo(p.Size())
  {
    PrefixKeepsOrder(p, s, |s.runs|);
    PrefixRespects(p, s, |s.runs|);
    assert s.runs[..|s.runs|] == s.runs;
    var order := Flatten(s.runs);
    forall i
      ensures i in order <==> 0 <= i < p.Size()
    {
      if p.IsNode(i) {
        AllAreAssigned(p, s, i);
      }
    }
    UpToAll(order, p.Size());
  }

  /** Without fusion, or not greedily, a graph in dependency order keeps its order, and two neighbours share a
      subset exactly when fusion is on and they are of one type. */
  lemma OrderIsKept(p: Problem, s: Plan)
    requires p.WellFormed() && PartitionOf(p, s) && p.KeepsOrder() && p.InOrder()
    ensures Flatten(s.runs) == UpTo(p.Size())
    ensures forall i :: 0 < i < p.Size() ==>
      (s.epochs[i] == s.epochs[i - 1] <==> !p.disableNodeFusion && p.KindOf(i) == p.KindOf(i - 1))
  {
    FlattenKeepsOrder(p, s);
    forall i | 0 < i < p.Size()
      ensures s.epochs[i] == s.epochs[i - 1] <==> !p.disableNodeFusion && p.KindOf(i) == p.KindOf(i - 1)
    {
      assert s.epochs[i] == p.RunNumber(i) && s.epochs[i - 1] == p.RunNumber(i - 1);
    }
  }

  // ----- operators with side effects -----

  /** `a` and `b` have side effects and no node between them has. */
  predicate ConsecutiveStateful(g: Graph, a: int, b: int) {
    && 0 <= a < b < |g.nodes| && g.nodes[a].mightHaveSideEffect && g.nodes[b].mightHaveSideEffect
    && forall c :: a < c < b ==> !g.nodes[c].mightHaveSideEffect
  }

  lemma {:induction false} ChainedRunsBefore(p: Problem, order: seq<int>, a: int, q: nat)
    requires Respects(p, order) && q < |order| && 0 <= a < order[q]
    requires p.graph.nodes[a].mightHaveSideEffect && p.graph.nodes[order[q]].mightHaveSideEffect
    requires forall a, b :: ConsecutiveStateful(p.graph, a, b) ==> Edge(a, b) in p.edges
    ensures a in order[..q]
    decreases order[q]
  {
    var b := order[q];
    var c := b - 1;
    while !p.graph.nodes[c].mightHaveSideEffect
      invariant a <= c < b
      invariant forall d :: c < d < b ==> !p.graph.nodes[d].mightHaveSideEffect
      decreases c
    {
      c := c - 1;
    }
    assert ConsecutiveStateful(p.graph, c, b);
    assert p.DependsOn(b, c);
    if a < c {
      var r := IndexOf(order[..q], c);
      ChainedRunsBefore(p, order, a, r);
      assert order[..r] == order[..q][..r];
    }
  }

  /** The nodes with side effects, in the order they run. */
  function Stateful(g: Graph, order: seq<int>): seq<int>
    requires forall q :: 0 <= q < |order| ==> 0 <= order[q] < |g.nodes|
  {
    if order == [] then []
    else
      var i := order[|order| - 1];
      Stateful(g, order[..|order| - 1]) + if g.nodes[i].mightHaveSideEffect then [i] else []
  }

  lemma {:induction false} StatefulAscends(p: Problem, order: seq<int>, n: nat)
    requires Respects(p, order) && n <= |order|
    requires forall a, b :: ConsecutiveStateful(p.graph, a, b) ==> Edge(a, b) in p.edges
    ensures forall q, r :: 0 <= q < r < |Stateful(p.graph, order[..n])| ==>
      Stateful(p.graph, order[..n])[q] < Stateful(p.graph, order[..n])[r]
    ensures forall i :: i in Stateful(p.graph, order[..n]) <==> i in order[..n] && p.graph.nodes[i].mightHaveSideEffect
  {
    if n > 0 {
      StatefulAscends(p, order, n - 1);
      assert order[..n][..n - 1] == order[..n - 1];
      var i := order[n - 1];
      forall j | j in order[..n - 1] && p.graph.nodes[j].mightHaveSideEffect && p.graph.nodes[i].mightHaveSideEffect
        ensures j < i
      {
        var q := IndexOf(order[..n - 1], j);
        if i < j {
          ChainedRunsBefore(p, order, i, q);
        }
      }
      var before := Stateful(p.graph, order[..n - 1]);
      forall q | 0 <= q < |before| && p.graph.nodes[i].mightHaveSideEffect
        ensures before[q] < i
      {
        assert before[q] in before;
      }
    }
  }

  /** When consecutive stateful nodes are chained, the scheduled stateful nodes run in their original order. */
  lemma StatefulNodesKeepTheirOrder(p: Problem, s: Plan)
    requires p.WellFormed() && PartitionOf(p, s)
    requires forall a, b :: ConsecutiveStateful(p.graph, a, b) ==> Edge(a, b) in p.edges
    ensures Respects(p, Flatten(s.runs))
    ensures var stateful := Stateful(p.graph, Flatten(s.runs));
      forall q, r :: 0 <= q < r < |stateful| ==> stateful[q] < stateful[r]
  {
    var order := Flatten(s.runs);
    assert s.runs[..|s.runs|] == s.runs && order[..|order|] == order;
    PrefixRespects(p, s, |s.runs|);
    StatefulAscends(p, order, |order|);
  }
}
