/** The inference graph seen by the memory planner and the partitioner: `graph_info.h`. */
module Graphs {
  /** Index of an absent optional tensor (kTfLiteOptionalTensor). */
  const OPTIONAL := -1

  datatype AllocationType =
    | MemNone | MmapRo | ArenaRw | ArenaRwPersistent | Dynamic
    | PersistentRo | Custom | VariantObject | NonCpu

  datatype Tensor = Tensor(bytes: nat, allocationType: AllocationType) {
    predicate InArena() { allocationType.ArenaRw? || allocationType.ArenaRwPersistent? }
  }

  /** The in-place bit mask of an operator: which of the first three inputs may share the buffer of
      the first output, and whether the operator leaves the data unmodified. */
  datatype InPlace = InPlace(dataUnmodified: bool, correspondingOutput: bool, input0: bool, input1: bool,
                             input2: bool) {
    predicate IsNone() { !dataUnmodified && !correspondingOutput && !input0 && !input1 && !input2 }

    predicate InputShared(i: nat) {
      (i == 0 && input0) || (i == 1 && input1) || (i == 2 && input2)
    }
  }

  const MAX_SHARABLE_OP_INPUTS := 3

  datatype Node = Node(inputs: seq<int>, outputs: seq<int>, temporaries: seq<int>, inPlace: InPlace,
                       mightHaveSideEffect: bool)

  datatype Graph = Graph(tensors: seq<Tensor>, nodes: seq<Node>, inputs: seq<int>, outputs: seq<int>,
                         variables: seq<int>) {

    predicate IsTensor(t: int) { 0 <= t < |tensors| }

    predicate IsTensorOrOptional(t: int) { t == OPTIONAL || IsTensor(t) }

    /** Every index denotes a tensor, or is the optional marker where that is allowed. */
    predicate WellIndexed() {
      && (forall i :: 0 <= i < |inputs| ==> IsTensorOrOptional(inputs[i]))
      && (forall i :: 0 <= i < |outputs| ==> IsTensorOrOptional(outputs[i]))
      && (forall i :: 0 <= i < |variables| ==> IsTensor(variables[i]))
      && (forall i, j :: 0 <= i < |nodes| && 0 <= j < |nodes[i].inputs| ==> IsTensorOrOptional(nodes[i].inputs[j]))
      && (forall i, j :: 0 <= i < |nodes| && 0 <= j < |nodes[i].outputs| ==> IsTensorOrOptional(nodes[i].outputs[j]))
      && (forall i, j :: 0 <= i < |nodes| && 0 <= j < |nodes[i].temporaries| ==> IsTensor(nodes[i].temporaries[j]))
    }

    /** The tensor holds data before any node runs. */
    predicate Given(t: int) { t in inputs || t in variables }

    predicate Writes(i: nat, t: int)
      requires i < |nodes|
    {
      t != OPTIONAL && t in nodes[i].outputs
    }

    predicate Reads(i: nat, t: int)
      requires i < |nodes|
    {
      t != OPTIONAL && t in nodes[i].inputs
    }

    predicate Scratches(i: nat, t: int)
      requires i < |nodes|
    {
      t in nodes[i].temporaries
    }

    /** Each tensor is written by at most one node, and given tensors by none. */
    ghost predicate SingleProducer() {
      && (forall i, j, t :: 0 <= i < |nodes| && 0 <= j < |nodes| && Writes(i, t) && Writes(j, t) ==> i == j)
      && (forall i, t :: 0 <= i < |nodes| && Writes(i, t) ==> !Given(t))
    }

    /** A node reads only tensors written by earlier nodes, given, or never written at all. */
    ghost predicate DependencyOrder() {
      forall i, j, t :: 0 <= i < |nodes| && 0 <= j < |nodes| && Reads(i, t) && Writes(j, t) ==> j < i
    }

    /** A temporary belongs to one node and plays no other part in the graph. */
    ghost predicate PrivateTemporaries() {
      && (forall i, j, t :: 0 <= i < |nodes| && 0 <= j < |nodes| && Scratches(i, t) && Scratches(j, t) ==> i == j)
      && (forall i, j, t :: 0 <= i < |nodes| && 0 <= j < |nodes| && Scratches(i, t) ==> !Writes(j, t))
      && (forall i, j, t :: 0 <= i < |nodes| && 0 <= j < |nodes| && Scratches(i, t) ==> !Reads(j, t))
      && (forall i, t :: 0 <= i < |nodes| && Scratches(i, t) ==> !Given(t) && t !in outputs)
    }

    predicate NoInPlace() {
      forall i :: 0 <= i < |nodes| ==> nodes[i].inPlace.IsNone()
    }
  }
}
