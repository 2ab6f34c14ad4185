/** What a partition of an execution plan into single-type node subsets is, and what follows from one.

    A plan records, for every node, the epoch (the number of the subset) it was assigned to, and for
    every epoch its nodes in the order they were assigned. */
module Partitions {
  import opened Graphs

  const NOT_READY := -1
  const ALWAYS_READY := -2

  datatype Kind = Unexplored | Partition | NonPartition

  /** Node `after` must not run before node `before`. */
  datatype Edge = Edge(before: int, after: int)

  datatype NodeSubset = NodeSubset(kind: Kind, nodes: seq<int>, inputTensors: seq<int>, outputTensors: seq<int>)

  /** A graph whose `nodes` are its execution plan, the index of each of them among all nodes, the type of
      all nodes, the control edges between execution-plan nodes, and the two switches. */
  datatype Problem = Problem(graph: Graph, nodeIndex: seq<int>, kinds: seq<Kind>, edges: seq<Edge>,
                             greedily: bool, disableNodeFusion: bool) {

    function Size(): nat { |graph.nodes| }

    predicate IsNode(i: int) { 0 <= i < |graph.nodes| }

    predicate WellFormed() {
      && graph.WellIndexed() && |nodeIndex| == |graph.nodes|
      && (forall i :: 0 <= i < |nodeIndex| ==> 0 <= nodeIndex[i] < |kinds|)
      && (forall i :: 0 <= i < |kinds| ==> !kinds[i].Unexplored?)
      && (forall e :: e in edges ==> IsNode(e.before) && IsNode(e.after))
      && (forall i :: 0 <= i < |graph.outputs| ==> graph.IsTensor(graph.outputs[i]))
    }

    ghost predicate OneProducer() {
      forall i, j, t :: IsNode(i) && IsNode(j) && graph.Writes(i, t) && graph.Writes(j, t) ==> i == j
    }

    function KindOf(i: int): Kind
      requires WellFormed() && IsNode(i)
    {
      kinds[nodeIndex[i]]
    }

    /** Node `i` reads what `j` writes, or a control edge puts it after `j`. */
    ghost predicate DependsOn(i: int, j: int) {
      IsNode(i) && IsNode(j) && (Edge(j, i) in edges || exists t :: graph.Reads(i, t) && graph.Writes(j, t))
    }

    /** The original order respects every dependency. */
    ghost predicate InOrder() {
      forall i, j :: DependsOn(i, j) ==> j < i
    }

    /** The nodes can be ranked so that each ranks above those it depends on. */
    ghost predicate RankedBy(rank: seq<nat>) {
      |rank| == Size() && forall i, j :: DependsOn(i, j) ==> rank[j] < rank[i]
    }

    ghost predicate Acyclic() { exists rank :: RankedBy(rank) }

    /** The modes that keep the original order when it respects the dependencies. */
    predicate KeepsOrder() { !greedily || disableNodeFusion }

    /** The number of the run of consecutive nodes of one type that node `i` is in. */
    function RunNumber(i: int): (r: int)
      requires WellFormed() && IsNode(i)
      ensures 0 <= r <= i
    {
      if i == 0 then 0
      else RunNumber(i - 1) + if !disableNodeFusion && KindOf(i) == KindOf(i - 1) then 0 else 1
    }
  }

  datatype Plan = Plan(epochs: seq<int>, runs: seq<seq<int>>) {

    ghost predicate Consistent(n: nat) {
      && |epochs| == n
      && (forall i :: 0 <= i < n ==> epochs[i] == NOT_READY || (0 <= epochs[i] < |runs| && i in runs[epochs[i]]))
      && (forall k, m :: 0 <= k < |runs| && 0 <= m < |runs[k]| ==> 0 <= runs[k][m] < n && epochs[runs[k][m]] == k)
      && (forall k, m, l :: 0 <= k < |runs| && 0 <= m < l < |runs[k]| ==> runs[k][m] != runs[k][l])
    }

    /** `i` is assigned to one of the epochs up to `k`. */
    predicate By(i: int, k: int) {
      0 <= i < |epochs| && 0 <= epochs[i] <= k
    }

    function Last(): seq<int>
      requires |runs| > 0
    {
      runs[|runs| - 1]
    }

    function Opened(): Plan {
      Plan(epochs, runs + [[]])
    }

    function Join(i: int): Plan
      requires |runs| > 0 && 0 <= i < |epochs|
    {
      Plan(epochs[i := |runs| - 1], runs[|runs| - 1 := Last() + [i]])
    }

    /** The nodes without an epoch. */
    function Waiting(): set<int> {
      set i | 0 <= i < |epochs| && epochs[i] == NOT_READY
    }
  }

  /** Everything node `i` depends on is assigned by epoch `k`. */
  ghost predicate ReadyBy(p: Problem, s: Plan, i: int, k: int) {
    forall j :: p.DependsOn(i, j) ==> s.By(j, k)
  }

  /** Each run is of one type, and each node comes after everything it depends on. */
  ghost predicate Legal(p: Problem, s: Plan)
    requires p.WellFormed()
  {
    && s.Consistent(p.Size())
    && (forall k, m :: 0 <= k < |s.runs| && 0 <= m < |s.runs[k]| ==> p.KindOf(s.runs[k][m]) == p.KindOf(s.runs[k][0]))
    && (forall k, m, j :: 0 <= k < |s.runs| && 0 <= m < |s.runs[k]| && p.DependsOn(s.runs[k][m], j) ==>
          s.By(j, k - 1) || j in s.runs[k][..m])
  }

  /** Node `i` may be assigned to the last epoch. */
  ghost predicate CanJoin(p: Problem, s: Plan, i: int)
    requires p.WellFormed() && s.Consistent(p.Size()) && |s.runs| > 0 && p.IsNode(i)
  {
    && s.epochs[i] == NOT_READY
    && ReadyBy(p, s, i, |s.runs| - 1)
    && (s.Last() == [] || (!p.disableNodeFusion && p.KindOf(s.Last()[0]) == p.KindOf(i)))
  }

  lemma JoinKeepsConsistent(s: Plan, n: nat, i: int)
    requires s.Consistent(n) && |s.runs| > 0 && 0 <= i < n && s.epochs[i] == NOT_READY
    ensures s.Join(i).Consistent(n) && s.Join(i).Waiting() == s.Waiting() - {i} && i in s.Waiting()
  {
    var e := |s.runs| - 1;
    var j := s.Join(i);
    assert j.runs[e] == s.runs[e] + [i];
    assert i in j.runs[e] by { assert j.runs[e][|s.runs[e]|] == i; }
    forall x | 0 <= x < n && j.epochs[x] != NOT_READY
      ensures 0 <= j.epochs[x] < |j.runs| && x in j.runs[j.epochs[x]]
    {
      if x != i {
        assert x in s.runs[s.epochs[x]];
      }
    }
  }

  lemma JoinKeepsTypes(p: Problem, s: Plan, i: int)
    requires p.WellFormed() && Legal(p, s) && |s.runs| > 0 && p.IsNode(i) && CanJoin(p, s, i)
      && s.Join(i).Consistent(p.Size())
    ensures var j := s.Join(i);
      forall k, m :: 0 <= k < |j.runs| && 0 <= m < |j.runs[k]| ==> p.KindOf(j.runs[k][m]) == p.KindOf(j.runs[k][0])
  {
    hide Problem.WellFormed;
    hide Problem.DependsOn;
    var j := s.Join(i);
    forall k, m | 0 <= k < |j.runs| && 0 <= m < |j.runs[k]|
      ensures p.KindOf(j.runs[k][m]) == p.KindOf(j.runs[k][0])
    {
      assert k < |s.runs| - 1 ==> j.runs[k] == s.runs[k];
    }
  }

  lemma JoinKeepsDependencies(p: Problem, s: Plan, i: int, k: nat, m: nat, x: int)
    requires p.WellFormed() && Legal(p, s) && |s.runs| > 0 && p.IsNode(i) && CanJoin(p, s, i)
    requires k < |s.runs| && m < |s.Join(i).runs[k]| && p.DependsOn(s.Join(i).runs[k][m], x)
    ensures s.Join(i).By(x, k - 1) || x in s.Join(i).runs[k][..m]
  {
    hide Problem.WellFormed;
    hide Problem.DependsOn;
    hide Problem.KindOf;
    if k == |s.runs| - 1 && m == |s.Last()| {
      JoinedIsReady(p, s, i, x);
    } else {
      JoinKeepsEarlier(s, i, k, m, x);
      NodeComesAfter(p, s, k, m, x);
    }
  }

  lemma NodeComesAfter(p: Problem, s: Plan, k: nat, m: nat, x: int)
    requires p.WellFormed() && Legal(p, s) && k < |s.runs| && m < |s.runs[k]| && p.DependsOn(s.runs[k][m], x)
    ensures (s.By(x, k - 1) || x in s.runs[k][..m]) && p.IsNode(x) && p.IsNode(s.runs[k][m])
      && s.epochs[s.runs[k][m]] == k
  {}

  lemma JoinKeepsEarlier(s: Plan, i: int, k: nat, m: nat, x: int)
    requires |s.runs| > 0 && 0 <= i < |s.epochs| && k < |s.runs| && m < |s.Join(i).runs[k]|
    requires s.epochs[i] == NOT_READY && !(k == |s.runs| - 1 && m == |s.Last()|)
    ensures m < |s.runs[k]| && s.Join(i).runs[k][m] == s.runs[k][m] && s.Join(i).runs[k][..m] == s.runs[k][..m]
    ensures s.By(x, k - 1) ==> s.Join(i).By(x, k - 1)
  {}

  lemma JoinedIsReady(p: Problem, s: Plan, i: int, x: int)
    requires p.WellFormed() && Legal(p, s) && |s.runs| > 0 && p.IsNode(i) && CanJoin(p, s, i) && p.DependsOn(i, x)
    ensures var e := |s.runs| - 1; s.Join(i).By(x, e - 1) || x in s.Join(i).runs[e][..|s.Last()|]
  {
    hide Problem.WellFormed;
    hide Problem.DependsOn;
    hide Problem.KindOf;
    var e := |s.runs| - 1;
    assert s.By(x, e);
    assert x in s.runs[s.epochs[x]];
    assert s.Join(i).runs[e][..|s.Last()|] == s.runs[e];
  }

  lemma JoinKeepsLegal(p: Problem, s: Plan, i: int)
    requires p.WellFormed() && Legal(p, s) && |s.runs| > 0 && p.IsNode(i) && CanJoin(p, s, i)
    ensures Legal(p, s.Join(i)) && s.Join(i).Waiting() == s.Waiting() - {i} && i in s.Waiting()
  {
    hide Problem.WellFormed;
    hide Problem.DependsOn;
    JoinKeepsConsistent(s, p.Size(), i);
    JoinKeepsTypes(p, s, i);
    var j := s.Join(i);
    hide Plan.Consistent;
    forall k, m, x | 0 <= k < |j.runs| && 0 <= m < |j.runs[k]| && p.DependsOn(j.runs[k][m], x)
      ensures j.By(x, k - 1) || x in j.runs[k][..m]
    {
      JoinKeepsDependencies(p, s, i, k, m, x);
    }
  }

  /** The epochs before the last are complete: a further subset was opened only after each of them. */
  ghost predicate Extends(s: Plan, next: Plan) {
    && |next.runs| == |s.runs| + 1 && next.runs[..|s.runs|] == s.runs && |next.epochs| == |s.epochs|
    && forall i :: 0 <= i < |s.epochs| ==>
        next.epochs[i] == s.epochs[i] || (s.epochs[i] == NOT_READY && next.epochs[i] == |s.runs|)
  }

  /** No node of the type of epoch `k` that comes later could have been in it. */
  ghost predicate Saturated(p: Problem, s: Plan, k: int)
    requires p.WellFormed() && s.Consistent(p.Size()) && 0 <= k < |s.runs| && s.runs[k] != []
  {
    forall i :: p.IsNode(i) && !s.By(i, k) && p.KindOf(i) == p.KindOf(s.runs[k][0]) ==> !ReadyBy(p, s, i, k)
  }

  ghost predicate Stuck(p: Problem, s: Plan)
    requires s.Consistent(p.Size())
  {
    forall i :: p.IsNode(i) && s.epochs[i] == NOT_READY ==> !ReadyBy(p, s, i, |s.runs| - 1)
  }

  /** The assigned nodes are the first `d` in their original order, cut into maximal runs of one type. */
  ghost predicate OriginalRuns(p: Problem, s: Plan, d: int)
    requires p.WellFormed() && s.Consistent(p.Size())
  {
    && 0 <= d <= p.Size()
    && (forall i :: p.IsNode(i) ==> s.epochs[i] == (if i < d then p.RunNumber(i) else NOT_READY))
    && (forall k, m :: 0 <= k < |s.runs| && 0 <= m < |s.runs[k]| ==> s.runs[k][m] == s.runs[k][0] + m)
    && |s.runs| == (if d == 0 then 0 else p.RunNumber(d - 1) + 1)
    && (0 < d < p.Size() ==> p.RunNumber(d) == |s.runs|)
  }

  /** What holds after each complete epoch. */
  ghost predicate Built(p: Problem, s: Plan)
    requires p.WellFormed()
  {
    && Legal(p, s)
    && (forall k :: 0 <= k < |s.runs| ==> s.runs[k] != [])
    && (p.disableNodeFusion ==> forall k :: 0 <= k < |s.runs| ==> |s.runs[k]| == 1)
    && (p.greedily && !p.disableNodeFusion ==> forall k :: 0 <= k < |s.runs| ==> Saturated(p, s, k))
  }

  /** The outcome of partitioning. */
  ghost predicate PartitionOf(p: Problem, s: Plan)
    requires p.WellFormed()
  {
    && Built(p, s) && Stuck(p, s)
    && (p.KeepsOrder() && p.InOrder() ==> OriginalRuns(p, s, p.Size()))
  }

  // ----- one epoch at a time -----

  /** The state inside the loop that fills the last epoch of `s`, opened from `s0`. */
  ghost predicate Filling(p: Problem, s0: Plan, s: Plan)
    requires p.WellFormed()
  {
    && Built(p, s0) && Legal(p, s) && Extends(s0, s) && (p.disableNodeFusion ==> |s.Last()| <= 1)
  }

  /** In an order-keeping mode the last epoch holds the nodes from `d` on. */
  ghost predicate Sweeping(p: Problem, s0: Plan, s: Plan, d: int)
    requires p.WellFormed() && Filling(p, s0, s)
  {
    && OriginalRuns(p, s0, d) && d + |s.Last()| <= p.Size()
    && (forall m :: 0 <= m < |s.Last()| ==> s.Last()[m] == d + m)
    && (forall i :: p.IsNode(i) ==> (s.epochs[i] != NOT_READY <==> i < d + |s.Last()|))
  }

  lemma JoinKeepsFilling(p: Problem, s0: Plan, s: Plan, i: int)
    requires p.WellFormed() && Filling(p, s0, s) && p.IsNode(i) && CanJoin(p, s, i)
    ensures Filling(p, s0, s.Join(i))
  {
    JoinKeepsLegal(p, s, i);
    assert s.Join(i).runs[..|s0.runs|] == s.runs[..|s0.runs|];
  }

  /** In an order-keeping mode only the first waiting node joins. */
  lemma SweepJoins(p: Problem, s0: Plan, s: Plan, d: int, i: int)
    requires p.WellFormed() && Filling(p, s0, s) && Sweeping(p, s0, s, d) && i == d + |s.Last()| && p.IsNode(i)
      && CanJoin(p, s, i)
    ensures Filling(p, s0, s.Join(i)) && Sweeping(p, s0, s.Join(i), d)
  {
    hide Problem.WellFormed;
    hide Problem.DependsOn;
    hide Problem.RunNumber;
    hide OriginalRuns;
    hide Built;
    JoinKeepsFilling(p, s0, s, i);
  }

  lemma FirstWaitingIsReady(p: Problem, s0: Plan, s: Plan, d: int)
    requires p.WellFormed() && Filling(p, s0, s) && Sweeping(p, s0, s, d) && p.InOrder() && d + |s.Last()| < p.Size()
    ensures ReadyBy(p, s, d + |s.Last()|, |s.runs| - 1)
  {
  }

  lemma {:induction false} OneRun(p: Problem, d: nat, i: nat)
    requires p.WellFormed() && d <= i < p.Size() && (p.disableNodeFusion ==> i == d)
    requires forall l :: d <= l <= i ==> p.KindOf(l) == p.KindOf(d)
    ensures p.RunNumber(i) == p.RunNumber(d)
  {
    hide Problem.WellFormed;
    if i > d {
      OneRun(p, d, i - 1);
    }
  }

  lemma SweepIsOneRun(p: Problem, s0: Plan, s: Plan, d: int)
    requires p.WellFormed() && Filling(p, s0, s) && Sweeping(p, s0, s, d) && s.Last() != []
    ensures forall i :: d <= i < d + |s.Last()| ==>
      p.KindOf(i) == p.KindOf(d) && p.RunNumber(i) == |s0.runs| && s.epochs[i] == |s0.runs|
  {
    hide Problem.WellFormed;
    hide Problem.DependsOn;
    hide Built;
    hide ReadyBy;
    var e := |s0.runs|;
    assert p.RunNumber(d) == e;
    forall i | d <= i < d + |s.Last()|
      ensures p.KindOf(i) == p.KindOf(d) && s.epochs[i] == e
    {
      assert s.runs[e][i - d] == i && s.runs[e][0] == d;
    }
    forall i | d <= i < d + |s.Last()|
      ensures p.RunNumber(i) == e
    {
      OneRun(p, d, i);
    }
  }

  lemma SweepNumbersItsNodes(p: Problem, s0: Plan, s: Plan, d: int, i: int)
    requires p.WellFormed() && Filling(p, s0, s) && Sweeping(p, s0, s, d) && s.Last() != [] && p.IsNode(i)
    ensures s.epochs[i] == (if i < d + |s.Last()| then p.RunNumber(i) else NOT_READY)
  {
    if d <= i < d + |s.Last()| {
      SweepIsOneRun(p, s0, s, d);
    } else if i < d {
      assert s0.epochs[i] == p.RunNumber(i);
    }
  }

  lemma SweepEnds(p: Problem, s0: Plan, s: Plan, d: int)
    requires p.WellFormed() && Filling(p, s0, s) && Sweeping(p, s0, s, d) && s.Last() != []
    requires p.disableNodeFusion || d + |s.Last()| == p.Size() || p.KindOf(d + |s.Last()|) != p.KindOf(d)
    ensures var end := d + |s.Last()|;
      0 < end <= p.Size() && |s.runs| == p.RunNumber(end - 1) + 1 && (end < p.Size() ==> p.RunNumber(end) == |s.runs|)
  {
    SweepIsOneRun(p, s0, s, d);
    var end := d + |s.Last()|;
    assert p.KindOf(end - 1) == p.KindOf(d) && p.RunNumber(end - 1) == |s0.runs|;
  }

  /** A finished sweep leaves the nodes before its end in maximal runs. */
  lemma SweepCompletes(p: Problem, s0: Plan, s: Plan, d: int)
    requires p.WellFormed() && Filling(p, s0, s) && Sweeping(p, s0, s, d) && s.Last() != []
    requires p.disableNodeFusion || d + |s.Last()| == p.Size() || p.KindOf(d + |s.Last()|) != p.KindOf(d)
    ensures OriginalRuns(p, s, d + |s.Last()|)
  {
    hide Problem.WellFormed;
    hide Problem.DependsOn;
    hide Problem.RunNumber;
    hide Problem.KindOf;
    hide Built;
    forall i | p.IsNode(i)
      ensures s.epochs[i] == (if i < d + |s.Last()| then p.RunNumber(i) else NOT_READY)
    {
      SweepNumbersItsNodes(p, s0, s, d, i);
    }
    SweepEnds(p, s0, s, d);
    forall k, m | 0 <= k < |s.runs| && 0 <= m < |s.runs[k]|
      ensures s.runs[k][m] == s.runs[k][0] + m
    {
      assert k < |s0.runs| ==> s.runs[k] == s.runs[..|s0.runs|][k];
    }
  }

  lemma SaturationLasts(p: Problem, s0: Plan, s: Plan, k: int)
    requires p.WellFormed() && s0.Consistent(p.Size()) && s.Consistent(p.Size()) && Extends(s0, s)
    requires 0 <= k < |s0.runs| && s0.runs[k] != [] && Saturated(p, s0, k)
    ensures s.runs[k] == s0.runs[k] && Saturated(p, s, k)
  {
    assert s.runs[k] == s.runs[..|s0.runs|][k];
    forall i | p.IsNode(i) && !s.By(i, k) && p.KindOf(i) == p.KindOf(s.runs[k][0])
      ensures !ReadyBy(p, s, i, k)
    {
      assert !s0.By(i, k);
      var j :| p.DependsOn(i, j) && !s0.By(j, k);
      assert !s.By(j, k);
    }
  }

  /** A filled epoch that nothing more can join is one more complete epoch. */
  lemma FilledIsBuilt(p: Problem, s0: Plan, s: Plan)
    requires p.WellFormed() && Filling(p, s0, s) && s.Last() != []
    requires p.greedily ==> forall i :: p.IsNode(i) ==> !CanJoin(p, s, i)
    ensures Built(p, s)
  {
    var e := |s0.runs|;
    assert forall k :: 0 <= k < e ==> s.runs[k] == s.runs[..e][k];
    if p.greedily && !p.disableNodeFusion {
      forall k | 0 <= k < |s.runs|
        ensures Saturated(p, s, k)
      {
        if k < e {
          SaturationLasts(p, s0, s, k);
        } else {
          assert forall i :: p.IsNode(i) ==> !CanJoin(p, s, i);
        }
      }
    }
  }

  // ----- the rounds that fill one epoch -----

  ghost predicate Ordered(p: Problem) { p.KeepsOrder() && p.InOrder() }

  /** Between two rounds over all nodes. In an order-keeping mode `d` nodes are assigned to earlier epochs. */
  ghost predicate BetweenRounds(p: Problem, s0: Plan, s: Plan, d: int)
    requires p.WellFormed()
  {
    && Filling(p, s0, s)
    && (Ordered(p) ==> Sweeping(p, s0, s, d) && (s.Last() != [] && !p.disableNodeFusion ==> d + |s.Last()| == p.Size()))
  }

  /** In a round that began with plan `r`, before node `i`; `any` tells whether some node joined in it. */
  ghost predicate InRound(p: Problem, s0: Plan, r: Plan, s: Plan, d: int, any: bool, i: int)
    requires p.WellFormed()
  {
    && Filling(p, s0, s) && 0 <= i <= p.Size()
    && (any ==> s.Last() != [] && |s.Waiting()| < |r.Waiting()|)
    && (!any ==> s == r && forall j :: 0 <= j < i ==> !CanJoin(p, s, j))
    && (Ordered(p) ==> Sweeping(p, s0, s, d) && Swept(p, d, |s.Last()|, any, i))
  }

  /** In an order-keeping mode the nodes before `i` have been taken in a row. */
  predicate Swept(p: Problem, d: int, taken: nat, any: bool, i: int) {
    && (taken == 0 ==> i <= d)
    && (taken > 0 && !p.disableNodeFusion ==> d + taken == p.Size() || (any && i == d + taken))
  }

  /** The epoch is complete: nothing joined it because nothing could, or it holds all that belongs to it. */
  ghost predicate Finished(p: Problem, s0: Plan, s: Plan, d: int)
    requires p.WellFormed()
  {
    && Filling(p, s0, s)
    && (s.Last() == [] ==> forall i :: p.IsNode(i) ==> !CanJoin(p, s, i))
    && (s.Last() != [] ==> Built(p, s))
    && (Ordered(p) ==> if s.Last() == [] then d == p.Size() else OriginalRuns(p, s, d + |s.Last()|))
  }

  lemma OpenedIsBetweenRounds(p: Problem, s: Plan, d: int)
    requires p.WellFormed() && Built(p, s) && (Ordered(p) ==> OriginalRuns(p, s, d))
    ensures BetweenRounds(p, s, s.Opened(), d)
  {
    hide Problem.WellFormed;
    hide Problem.DependsOn;
    hide Problem.RunNumber;
    OpenedIsLegal(p, s);
    hide Legal;
    hide Saturated;
    assert s.Opened().runs[..|s.runs|] == s.runs;
  }

  lemma OpenedIsLegal(p: Problem, s: Plan)
    requires p.WellFormed() && Legal(p, s)
    ensures Legal(p, s.Opened())
  {
    hide Problem.WellFormed;
    hide Problem.DependsOn;
    var o := s.Opened();
    assert forall k :: 0 <= k < |s.runs| ==> o.runs[k] == s.runs[k];
    assert forall i :: 0 <= i < p.Size() && s.epochs[i] != NOT_READY ==> o.runs[s.epochs[i]] == s.runs[s.epochs[i]];
    forall k, m, j | 0 <= k < |o.runs| && 0 <= m < |o.runs[k]| && p.DependsOn(o.runs[k][m], j)
      ensures o.By(j, k - 1) || j in o.runs[k][..m]
    {
      assert s.By(j, k - 1) || j in s.runs[k][..m];
    }
  }

  lemma RoundBegins(p: Problem, s0: Plan, s: Plan, d: int)
    requires p.WellFormed() && BetweenRounds(p, s0, s, d)
    ensures InRound(p, s0, s, s, d, false, 0)
  {}

  lemma InRoundIsLegal(p: Problem, s0: Plan, r: Plan, s: Plan, d: int, any: bool, i: int)
    requires p.WellFormed() && InRound(p, s0, r, s, d, any, i)
    ensures Legal(p, s) && |s.runs| > 0
  {}

  lemma WaitingShrinks(s: set<int>, i: int)
    requires i in s
    ensures |s - {i}| < |s|
  {}

  lemma NodeJoins(p: Problem, s0: Plan, r: Plan, s: Plan, d: int, any: bool, i: int)
    requires p.WellFormed() && InRound(p, s0, r, s, d, any, i) && p.IsNode(i) && CanJoin(p, s, i)
    ensures InRound(p, s0, r, s.Join(i), d, true, i + 1)
  {
    JoinKeepsFilling(p, s0, s, i);
    JoinKeepsConsistent(s, p.Size(), i);
    WaitingShrinks(s.Waiting(), i);
    if Ordered(p) {
      if d + |s.Last()| != i {
        FirstWaitingIsReady(p, s0, s, d);
      }
      SweepJoins(p, s0, s, d, i);
    }
  }

  lemma NodeIsPassed(p: Problem, s0: Plan, r: Plan, s: Plan, d: int, any: bool, i: int)
    requires p.WellFormed() && InRound(p, s0, r, s, d, any, i) && p.IsNode(i) && !CanJoin(p, s, i)
      && (any ==> p.greedily)
    ensures InRound(p, s0, r, s, d, any, i + 1)
  {
    if Ordered(p) && s.Last() == [] && i == d {
      FirstWaitingIsReady(p, s0, s, d);
    }
  }

  lemma LeftoverIsOfAnotherType(p: Problem, s0: Plan, s: Plan, d: int)
    requires p.WellFormed() && Filling(p, s0, s) && Sweeping(p, s0, s, d) && p.InOrder() && !p.disableNodeFusion
    requires s.Last() != [] && d + |s.Last()| < p.Size() && !CanJoin(p, s, d + |s.Last()|)
    ensures p.KindOf(d + |s.Last()|) != p.KindOf(d)
  {
    FirstWaitingIsReady(p, s0, s, d);
    assert s.Last()[0] == d;
  }

  lemma RoundStops(p: Problem, s0: Plan, r: Plan, s: Plan, d: int, i: int)
    requires p.WellFormed() && InRound(p, s0, r, s, d, true, i) && p.IsNode(i) && !CanJoin(p, s, i) && !p.greedily
    ensures Finished(p, s0, s, d)
  {
    hide Problem.WellFormed;
    hide Problem.DependsOn;
    hide Problem.RunNumber;
    hide OriginalRuns;
    hide Built;
    hide Saturated;
    FilledIsBuilt(p, s0, s);
    if Ordered(p) {
      if !p.disableNodeFusion && d + |s.Last()| < p.Size() {
        LeftoverIsOfAnotherType(p, s0, s, d);
      }
      SweepCompletes(p, s0, s, d);
    }
  }

  lemma RoundEnds(p: Problem, s0: Plan, r: Plan, s: Plan, d: int)
    requires p.WellFormed() && InRound(p, s0, r, s, d, true, p.Size())
    ensures BetweenRounds(p, s0, s, d) && |s.Waiting()| < |r.Waiting()|
  {}

  lemma IdleRoundEnds(p: Problem, s0: Plan, r: Plan, s: Plan, d: int)
    requires p.WellFormed() && InRound(p, s0, r, s, d, false, p.Size())
    ensures Finished(p, s0, s, d)
  {
    if s.Last() != [] {
      FilledIsBuilt(p, s0, s);
      if Ordered(p) {
        SweepCompletes(p, s0, s, d);
      }
    }
  }

  lemma FinishedHasLast(p: Problem, s0: Plan, s: Plan, d: int)
    requires p.WellFormed() && Finished(p, s0, s, d)
    ensures |s.runs| > 0 && s.Consistent(p.Size()) && s0.Consistent(p.Size())
  {}

  lemma NothingInLast(p: Problem, s0: Plan, s: Plan, d: int)
    requires p.WellFormed() && Finished(p, s0, s, d) && s.Last() == []
    ensures s == s0.Opened()
  {
    hide Problem.WellFormed;
    forall i | 0 <= i < p.Size()
      ensures s.epochs[i] == s0.epochs[i]
    {
      assert s.epochs[i] == NOT_READY || i in s.runs[s.epochs[i]];
    }
    assert s.runs == s0.runs + [s.Last()];
  }

  lemma NothingWasAdded(p: Problem, s0: Plan, s: Plan, d: int)
    requires p.WellFormed() && Finished(p, s0, s, d) && s.Last() == [] && (Ordered(p) ==> OriginalRuns(p, s0, d))
    ensures s == s0.Opened() && PartitionOf(p, s0)
  {
    NothingInLast(p, s0, s, d);
    forall i | p.IsNode(i) && s0.epochs[i] == NOT_READY
      ensures !ReadyBy(p, s0, i, |s0.runs| - 1)
    {
      assert !CanJoin(p, s, i);
      var j :| p.DependsOn(i, j) && !s.By(j, |s.runs| - 1);
      assert !s0.By(j, |s0.runs| - 1);
    }
  }

  lemma SomethingWasAdded(p: Problem, s0: Plan, s: Plan, d: int)
    requires p.WellFormed() && Finished(p, s0, s, d) && s.Last() != []
    ensures Built(p, s) && |s.Waiting()| < |s0.Waiting()|
    ensures Ordered(p) ==> OriginalRuns(p, s, d + |s.Last()|)
  {
    var i := s.Last()[0];
    assert s.epochs[i] == |s0.runs| && s0.epochs[i] == NOT_READY;
    assert i in s0.Waiting() && i !in s.Waiting();
    SmallerWithout(s.Waiting(), s0.Waiting(), i);
  }

  lemma SmallerWithout(a: set<int>, b: set<int>, x: int)
    requires a <= b && x in b && x !in a
    ensures |a| < |b|
  {
    assert b == a + (b - a) && a * (b - a) == {} && x in b - a;
  }
}
