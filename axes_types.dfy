/** The axes type functions (dagflow/core/type_functions/axes_type_functions.py)
    and `check_array_edges_consistency` of dagflow/typefunctions.py.

    An axis (edges or mesh) is an output, named by its handle in the table
    of output descriptors; a handle outside the table is something that is
    not an `Output`.  Inputs are given by the handles of their parent
    outputs. */
module AxesChecks {
  import opened Base
  import opened DataDescriptor
  import InputChecks
  import CopyTypes

  /** An edges output that exists and has `dim` axes. */
  predicate EdgeOfDim(table: seq<Descriptor>, h: int, dim: int)
  {
    0 <= h < |table| && Dim(table[h]) == Ok(dim)
  }

  /** The checks made of one edge: it must be an output with `dim` axes. */
  function EdgeCheck(table: seq<Descriptor>, h: int, dim: int): (r: Outcome)
    ensures r.Pass? <==> EdgeOfDim(table, h, dim)
    ensures r.Fail? ==> r.error == TypeFunctionError || r.error == TypeError
  {
    if !(0 <= h < |table|) then Fail(TypeFunctionError)
    else match Dim(table[h])
      case Err(e) => Fail(e)
      case Ok(n) => Need(n == dim, TypeFunctionError)
  }

  /** The checks made of one input: it must have edges, each passing `EdgeCheck`. */
  function EdgesDimOne(table: seq<Descriptor>, d: Descriptor, dim: int): (r: Outcome)
    ensures r.Pass? <==> |d.axesEdges| > 0 && forall e :: 0 <= e < |d.axesEdges| ==> EdgeOfDim(table, d.axesEdges[e], dim)
    ensures r.Fail? ==> r.error == TypeFunctionError || r.error == TypeError
  {
    if |d.axesEdges| == 0 then Fail(TypeFunctionError)
    else InputChecks.Each(d.axesEdges, (h: int) => EdgeCheck(table, h, dim), 0)
  }

  /** `check_edges_dimension_of_inputs`: every input has edges, and every
      edge is an output with `dim` axes. */
  function EdgesDimension(dds: seq<Descriptor>, table: seq<Descriptor>, dim: int): (r: Outcome)
    ensures r.Pass? <==> forall k :: 0 <= k < |dds| ==>
              |dds[k].axesEdges| > 0 && forall e :: 0 <= e < |dds[k].axesEdges| ==> EdgeOfDim(table, dds[k].axesEdges[e], dim)
    ensures r.Fail? ==> r.error == TypeFunctionError || r.error == TypeError
  {
    var r := InputChecks.Each(dds, (d: Descriptor) => EdgesDimOne(table, d, dim), 0);
    assert r.Fail? ==> exists k :: 0 <= k < |dds| && EdgesDimOne(table, dds[k], dim) == r;
    r
  }

  /** `check_edges_equivalence_of_inputs`: every input has the reference
      edges, by default those of the first input (then selecting no input
      raises IndexError). */
  function EdgesEquivalence(dds: seq<Descriptor>, reference: Option<seq<int>>): (r: Outcome)
    ensures reference.None? && |dds| == 0 ==> r == Fail(IndexError)
    ensures reference.Some? ==> (r.Pass? <==> forall k :: 0 <= k < |dds| ==> dds[k].axesEdges == reference.value)
    ensures reference.None? ==> (r.Pass? <==> |dds| > 0 && forall k :: 0 <= k < |dds| ==> dds[k].axesEdges == dds[0].axesEdges)
  {
    if reference.Some? then
      var r := InputChecks.Each(dds, (d: Descriptor) => Need(d.axesEdges == reference.value, TypeFunctionError), 0);
      assert r.Fail? ==> exists k :: 0 <= k < |dds| && Need(dds[k].axesEdges == reference.value, TypeFunctionError) == r;
      r
    else if |dds| == 0 then Fail(IndexError)
    else
      var r := InputChecks.Each(dds, (d: Descriptor) => Need(d.axesEdges == dds[0].axesEdges, TypeFunctionError), 1);
      assert r.Fail? ==> exists k :: 1 <= k < |dds| && Need(dds[k].axesEdges == dds[0].axesEdges, TypeFunctionError) == r;
      r
  }

  /** Every axis handle names an output. */
  predicate AllOutputs(table: seq<Descriptor>, edges: seq<int>)
  {
    forall e :: 0 <= e < |edges| ==> 0 <= edges[e] < |table|
  }

  /** `check_dtype_of_edges`: every edge of every selected input and output
      is an output.  Edges are always a tuple in this model, so the
      `isinstance(edges, tuple)` test always passes. */
  function EdgesAreOutputs(ins: seq<Descriptor>, outs: seq<Descriptor>, table: seq<Descriptor>): (r: Outcome)
    ensures r.Pass? <==> (forall k :: 0 <= k < |ins| ==> AllOutputs(table, ins[k].axesEdges)) &&
                         (forall k :: 0 <= k < |outs| ==> AllOutputs(table, outs[k].axesEdges))
    ensures r.Fail? ==> r.error == TypeFunctionError
  {
    var a := InputChecks.Each(ins, (d: Descriptor) => Need(AllOutputs(table, d.axesEdges), TypeFunctionError), 0);
    var b := InputChecks.Each(outs, (d: Descriptor) => Need(AllOutputs(table, d.axesEdges), TypeFunctionError), 0);
    assert a.Fail? ==> exists k :: 0 <= k < |ins| && Need(AllOutputs(table, ins[k].axesEdges), TypeFunctionError) == a;
    assert b.Fail? ==> exists k :: 0 <= k < |outs| && Need(AllOutputs(table, outs[k].axesEdges), TypeFunctionError) == b;
    if a.Fail? then a else b
  }

  /** Edges consistent with an array: none at all, or one per axis, each
      an output whose first axis is one longer than the array's axis. */
  predicate ConsistentEdges(d: Descriptor, table: seq<Descriptor>)
  {
    |d.axesEdges| == 0 ||
    (d.shape.Some? && |d.axesEdges| == |d.shape.value| &&
     forall i :: 0 <= i < |d.axesEdges| ==>
       0 <= d.axesEdges[i] < |table| && InputChecks.FirstAxis(table[d.axesEdges[i]]) == Ok(d.shape.value[i] + 1))
  }

  /** The edges loop from axis `i` on; `edge.dd` of a non-output raises
      AttributeError. */
  function EdgeLengthsFrom(d: Descriptor, table: seq<Descriptor>, i: nat): (r: Outcome)
    requires d.shape.Some? && |d.axesEdges| == |d.shape.value| && i <= |d.axesEdges|
    ensures r.Pass? <==> forall k :: i <= k < |d.axesEdges| ==>
              0 <= d.axesEdges[k] < |table| && InputChecks.FirstAxis(table[d.axesEdges[k]]) == Ok(d.shape.value[k] + 1)
    decreases |d.axesEdges| - i
  {
    if i == |d.axesEdges| then Pass
    else if !(0 <= d.axesEdges[i] < |table|) then Fail(AttributeError)
    else match InputChecks.FirstAxis(table[d.axesEdges[i]])
      case Err(e) => Fail(e)
      case Ok(n) =>
        if n != d.shape.value[i] + 1 then Fail(TypeFunctionError)
        else EdgeLengthsFrom(d, table, i + 1)
  }

  function ConsistentOne(d: Descriptor, table: seq<Descriptor>): (r: Outcome)
    ensures r.Pass? <==> ConsistentEdges(d, table)
  {
    if |d.axesEdges| == 0 then Pass
    else match Dim(d)
      case Err(e) => Fail(e)
      case Ok(n) =>
        if |d.axesEdges| != n then Fail(TypeFunctionError)
        else EdgeLengthsFrom(d, table, 0)
  }

  /** `check_edges_consistency_with_array` (and `check_array_edges_consistency`
      of the earlier revision): every selected output has consistent edges. */
  function EdgesConsistency(dds: seq<Descriptor>, table: seq<Descriptor>): (r: Outcome)
    ensures r.Pass? <==> forall k :: 0 <= k < |dds| ==> ConsistentEdges(dds[k], table)
  {
    var r := InputChecks.Each(dds, (d: Descriptor) => ConsistentOne(d, table), 0);
    assert r.Pass? <==> forall k :: 0 <= k < |dds| ==> ConsistentOne(dds[k], table).Pass?;
    r
  }

  /** Edges built for an array are consistent with it: one edges output
      per axis, each one longer than its axis. */
  lemma ConsistentByConstruction(d: Descriptor, table: seq<Descriptor>, shape: seq<nat>, edges: seq<int>)
    requires d.shape == Some(shape) && d.axesEdges == edges && |edges| == |shape|
    requires forall i :: 0 <= i < |edges| ==> 0 <= edges[i] < |table| && table[edges[i]].shape == Some([shape[i] + 1])
    ensures ConsistentEdges(d, table)
    ensures EdgesConsistency([d], table) == Pass
  {
    assert ConsistentEdges(d, table);
  }

  predicate ParentsIn(table: seq<Descriptor>, parents: seq<nat>)
  {
    forall i :: 0 <= i < |parents| ==> parents[i] < |table|
  }

  /** Axis `k` fits: its parent output is 1-d and one longer than the axis. */
  predicate AxisFits(shape: seq<nat>, parents: seq<nat>, table: seq<Descriptor>, k: nat)
    requires ParentsIn(table, parents) && |shape| == |parents| && k < |parents|
  {
    table[parents[k]].shape == Some([shape[k] + 1])
  }

  /** The parent output of axis `k` has a shape that is not 1-d. */
  predicate AxisNotFlat(parents: seq<nat>, table: seq<Descriptor>, k: nat)
    requires ParentsIn(table, parents) && k < |parents|
  {
    table[parents[k]].shape.Some? && |table[parents[k]].shape.value| != 1
  }

  /** The edges loop of `assign_edges_from_inputs_to_outputs` from axis
      `i` on: each parent output is 1-d and one longer than its axis.  The
      first axis that does not fit decides the error: a parent that is not
      1-d is a TypeFunctionError, while a 1-d parent of the wrong length
      fails with TypeError, because the message of that error applies
      `len` to an integer before the error exists. */
  function EdgesFitFrom(shape: seq<nat>, parents: seq<nat>, table: seq<Descriptor>, i: nat): (r: Outcome)
    requires ParentsIn(table, parents) && |shape| == |parents| && i <= |parents|
    ensures r.Pass? <==> forall k :: i <= k < |parents| ==> AxisFits(shape, parents, table, k)
    ensures r.Fail? ==> r.error == TypeError || r.error == TypeFunctionError
    ensures r == Fail(TypeFunctionError) <==>
              exists k :: i <= k < |parents| && AxisNotFlat(parents, table, k) &&
                          forall m :: i <= m < k ==> AxisFits(shape, parents, table, m)
    decreases |parents| - i
  {
    if i == |parents| then Pass
    else
      var s := table[parents[i]].shape;
      if s.None? then
        assert !AxisFits(shape, parents, table, i) && !AxisNotFlat(parents, table, i);
        Fail(TypeError)
      else if |s.value| != 1 then
        assert AxisNotFlat(parents, table, i) && !AxisFits(shape, parents, table, i);
        Fail(TypeFunctionError)
      else if s.value[0] != shape[i] + 1 then
        assert !AxisFits(shape, parents, table, i) && !AxisNotFlat(parents, table, i);
        Fail(TypeError)
      else
        assert s.value == [shape[i] + 1];
        assert AxisFits(shape, parents, table, i) && !AxisNotFlat(parents, table, i);
        var r := EdgesFitFrom(shape, parents, table, i + 1);
        assert r == Fail(TypeFunctionError) ==>
                 exists k :: i <= k < |parents| && AxisNotFlat(parents, table, k) &&
                             forall m :: i <= m < k ==> AxisFits(shape, parents, table, m);
        r
  }

  /** `assign_edges_from_inputs_to_outputs` for output descriptor `d`: the
      new descriptor.  Edges already assigned are kept with
      `ignore_assigned` and an error otherwise. */
  function EdgesAssigned(d: Descriptor, parents: seq<nat>, table: seq<Descriptor>, ignoreAssigned: bool): (r: Result<Descriptor>)
    requires ParentsIn(table, parents)
    ensures r.Ok? <==> (|d.axesEdges| > 0 && ignoreAssigned) ||
                       (|d.axesEdges| == 0 && d.shape.Some? && |d.shape.value| == |parents| &&
                        forall k :: 0 <= k < |parents| ==> AxisFits(d.shape.value, parents, table, k))
    ensures r.Ok? && |d.axesEdges| > 0 ==> r.value == d
    ensures r.Ok? && |d.axesEdges| == 0 ==> r.value == d.(axesEdges := parents)
    ensures |d.axesEdges| > 0 && !ignoreAssigned ==> r == Err(TypeFunctionError)
    ensures |d.axesEdges| == 0 && d.shape.None? ==> r == Err(TypeError)
    ensures |d.axesEdges| == 0 && d.shape.Some? && |d.shape.value| == |parents| ==>
              (r == Err(TypeFunctionError) <==>
                 exists k :: 0 <= k < |parents| && AxisNotFlat(parents, table, k) &&
                             forall m :: 0 <= m < k ==> AxisFits(d.shape.value, parents, table, m))
  {
    if |d.axesEdges| > 0 then
      if ignoreAssigned then Ok(d) else Err(TypeFunctionError)
    else if d.shape.None? then Err(TypeError)
    else if |d.shape.value| != |parents| then Err(TypeFunctionError)
    else match EdgesFitFrom(d.shape.value, parents, table, 0)
      case Fail(e) => Err(e)
      case Pass => Ok(d.(axesEdges := parents))
  }

  /** An output of shape [3] over an edges output of shape [5]: the
      lengths disagree, and the assignment fails with TypeError. */
  lemma EdgesLengthMismatch()
    ensures var edges := Descriptor(None, Some([5]), [], [], true, true);
            var out := Descriptor(None, Some([3]), [], [], true, true);
            EdgesAssigned(out, [0], [edges], false) == Err(TypeError)
  {
    var edges := Descriptor(None, Some([5]), [], [], true, true);
    var out := Descriptor(None, Some([3]), [], [], true, true);
    assert !AxisNotFlat([0], [edges], 0);
  }

  /** Assigned edges are consistent with the array they describe. */
  lemma AssignedEdgesConsistent(d: Descriptor, parents: seq<nat>, table: seq<Descriptor>, ignoreAssigned: bool)
    requires ParentsIn(table, parents) && |d.axesEdges| == 0
    requires EdgesAssigned(d, parents, table, ignoreAssigned).Ok?
    ensures ConsistentEdges(EdgesAssigned(d, parents, table, ignoreAssigned).value, table)
  {
    var e := EdgesAssigned(d, parents, table, ignoreAssigned).value;
    forall i | 0 <= i < |parents|
      ensures InputChecks.FirstAxis(table[parents[i]]) == Ok(d.shape.value[i] + 1)
    {
      assert AxisFits(d.shape.value, parents, table, i);
    }
  }

  /** The mesh list after `overwrite_assigned`: the new meshes take the
      first positions, the old ones beyond them remain. */
  function Overlaid(current: seq<int>, meshes: seq<int>): (r: seq<int>)
    ensures |r| == if |meshes| >= |current| then |meshes| else |current|
    ensures forall i :: 0 <= i < |meshes| ==> r[i] == meshes[i]
    ensures forall i :: |meshes| <= i < |current| ==> r[i] == current[i]
  {
    if |meshes| >= |current| then meshes else meshes + current[|meshes|..]
  }

  /** The overwrite loop, editing the list in place: each position is
      replaced, or appended past the end. */
  method Overwrite(current: seq<int>, meshes: seq<int>) returns (r: seq<int>)
    ensures r == Overlaid(current, meshes)
  {
    r := current;
    var i := 0;
    while i < |meshes|
      invariant 0 <= i <= |meshes|
      invariant |r| == if i >= |current| then i else |current|
      invariant forall k :: 0 <= k < i ==> r[k] == meshes[k]
      invariant forall k :: i <= k < |current| ==> r[k] == current[k]
    {
      if i < |r| {
        r := r[i := meshes[i]];
      } else {
        r := r + [meshes[i]];
      }
      i := i + 1;
    }
  }

  /** Whether `assign_meshes_from_inputs_to_outputs` writes the meshes of
      `d` (Ok(true)), returns without change (Ok(false)) or raises. */
  function MeshesPlan(d: Descriptor, parents: seq<nat>, table: seq<Descriptor>,
                      ignoreAssigned: bool, overwrite: bool, ignoreInconsistent: bool): (r: Result<bool>)
    requires ParentsIn(table, parents)
    ensures |d.axesMeshes| > 0 && ignoreAssigned ==> r == Ok(false)
    ensures |d.axesMeshes| > 0 && !ignoreAssigned && !overwrite ==> r == Err(TypeFunctionError)
    ensures r == Ok(true) ==> d.shape.Some? && forall k :: 0 <= k < |parents| ==> table[parents[k]].shape == d.shape
    ensures r == Ok(true) ==> |d.shape.value| == |parents| || (overwrite && |d.shape.value| == |d.axesMeshes|)
  {
    if |d.axesMeshes| > 0 && ignoreAssigned then Ok(false)
    else if |d.axesMeshes| > 0 && !overwrite then Err(TypeFunctionError)
    else if d.shape.None? then Err(TypeError)
    else if |d.shape.value| != |parents| && (!overwrite || |d.shape.value| != |d.axesMeshes|) then
      if ignoreInconsistent then Ok(false) else Err(TypeFunctionError)
    else
      var o := InputChecks.Each(parents, (p: nat) => Need(p < |table| && table[p].shape == d.shape, TypeFunctionError), 0);
      if o.Fail? then Err(o.error) else Ok(true)
  }

  /** `assign_meshes_from_inputs_to_outputs` for output descriptor `d`:
      the new descriptor. */
  function MeshesAssigned(d: Descriptor, parents: seq<nat>, table: seq<Descriptor>,
                          ignoreAssigned: bool, overwrite: bool, ignoreInconsistent: bool): (r: Result<Descriptor>)
    requires ParentsIn(table, parents)
    ensures r.Ok? ==> r.value.(axesMeshes := d.axesMeshes) == d
    ensures r.Ok? && r.value != d ==> d.shape.Some? && forall k :: 0 <= k < |parents| ==> table[parents[k]].shape == d.shape
    ensures r.Ok? && r.value != d && !overwrite ==> r.value.axesMeshes == parents
    ensures r.Ok? && r.value != d && overwrite ==>
              |r.value.axesMeshes| >= |parents| && |r.value.axesMeshes| >= |d.axesMeshes| &&
              (forall i :: 0 <= i < |parents| ==> r.value.axesMeshes[i] == parents[i]) &&
              (forall i :: |parents| <= i < |d.axesMeshes| ==> r.value.axesMeshes[i] == d.axesMeshes[i])
  {
    match MeshesPlan(d, parents, table, ignoreAssigned, overwrite, ignoreInconsistent)
    case Err(e) => Err(e)
    case Ok(write) =>
      if !write then Ok(d)
      else if overwrite then Ok(d.(axesMeshes := Overlaid(d.axesMeshes, parents)))
      else Ok(d.(axesMeshes := parents))
  }

  /** With `ignore_inconsistent_number_of_meshes`, a count that fits neither
      the array nor the old meshes leaves the descriptor as it was. */
  lemma InconsistentMeshesIgnored(d: Descriptor, parents: seq<nat>, table: seq<Descriptor>, overwrite: bool)
    requires ParentsIn(table, parents) && d.shape.Some? && |d.shape.value| != |parents|
    requires !overwrite || |d.shape.value| != |d.axesMeshes|
    requires |d.axesMeshes| == 0 || overwrite
    ensures MeshesAssigned(d, parents, table, false, overwrite, true) == Ok(d)
    ensures MeshesAssigned(d, parents, table, false, overwrite, false) == Err(TypeFunctionError)
  {
  }

  /** The keyword arguments of `assign_axes_from_inputs_to_outputs`; the
      options forwarded to the assigners are None when not passed. */
  datatype AxesArgs = AxesArgs(
    edges: bool, meshes: bool, ignoreNd: bool, merge: bool,
    ignoreAssigned: Option<bool>, overwrite: Option<bool>, ignoreInconsistent: Option<bool>)

  function Flag(o: Option<bool>): bool
  {
    o.Some? && o.value
  }

  /** One call of an assigner for output `o`; the edges assigner accepts
      neither `overwrite_assigned` nor `ignore_inconsistent_number_of_meshes`
      and raises TypeError when they are passed. */
  function AssignOne(table: seq<Descriptor>, parents: seq<nat>, o: nat, a: AxesArgs): (r: Result<seq<Descriptor>>)
    requires ParentsIn(table, parents) && o < |table|
    ensures r.Ok? ==> |r.value| == |table| && r.value[o].(axesEdges := table[o].axesEdges, axesMeshes := table[o].axesMeshes) == table[o]
    ensures r.Ok? ==> forall h :: 0 <= h < |table| && h != o ==> r.value[h] == table[h]
    ensures r.Ok? && a.edges ==> r.value[o].axesMeshes == table[o].axesMeshes
    ensures r.Ok? && !a.edges ==> r.value[o].axesEdges == table[o].axesEdges
  {
    if a.edges then
      if a.overwrite.Some? || a.ignoreInconsistent.Some? then Err(TypeError)
      else match EdgesAssigned(table[o], parents, table, Flag(a.ignoreAssigned))
        case Err(e) => Err(e)
        case Ok(d) => Ok(table[o := d])
    else
      match MeshesAssigned(table[o], parents, table, Flag(a.ignoreAssigned), Flag(a.overwrite), Flag(a.ignoreInconsistent))
      case Err(e) => Err(e)
      case Ok(d) => Ok(table[o := d])
  }

  /** The number of outputs visited: every output when merging or with a
      single input, otherwise as many as `zip` pairs. */
  function Visited(ins: seq<nat>, outs: seq<nat>, a: AxesArgs): (n: nat)
    ensures n <= |outs|
  {
    if a.merge || |ins| == 1 then |outs|
    else if |ins| <= |outs| then |ins| else |outs|
  }

  /** The parents given to the assigner for the `j`-th output. */
  function ParentsFor(ins: seq<nat>, outs: seq<nat>, a: AxesArgs, j: nat): (r: seq<nat>)
    requires j < Visited(ins, outs, a)
    ensures forall p :: p in r ==> p in ins
  {
    if a.merge then ins else if |ins| == 1 then [ins[0]] else [ins[j]]
  }

  /** The parents every output receives when they do not depend on the
      output: all inputs when merging, else the single input. */
  function Common(ins: seq<nat>, a: AxesArgs): (r: seq<nat>)
    requires a.merge || |ins| == 1
  {
    if a.merge then ins else [ins[0]]
  }

  /** The loop of `assign_axes_from_inputs_to_outputs` from output `j` on. */
  function AxesFrom(table: seq<Descriptor>, ins: seq<nat>, outs: seq<nat>, a: AxesArgs, j: nat): (r: (seq<Descriptor>, Outcome))
    requires ParentsIn(table, ins) && ParentsIn(table, outs) && j <= Visited(ins, outs, a)
    ensures |r.0| == |table|
    decreases |outs| - j
  {
    if j == Visited(ins, outs, a) then (table, Pass)
    else
      var o := outs[j];
      if !a.merge && a.ignoreNd && table[o].shape.None? then (table, Fail(TypeError))
      else if !a.merge && a.ignoreNd && |table[o].shape.value| != 1 then AxesFrom(table, ins, outs, a, j + 1)
      else
        assert ParentsIn(table, ParentsFor(ins, outs, a, j));
        match AssignOne(table, ParentsFor(ins, outs, a, j), o, a)
        case Err(e) => (table, Fail(e))
        case Ok(next) => AxesFrom(next, ins, outs, a, j + 1)
  }

  /** `assign_axes_from_inputs_to_outputs`: exactly one of edges and meshes
      must be asked for. */
  function AxesAssigned(table: seq<Descriptor>, ins: seq<nat>, outs: seq<nat>, a: AxesArgs): (r: (seq<Descriptor>, Outcome))
    requires ParentsIn(table, ins) && ParentsIn(table, outs)
    ensures a.edges == a.meshes ==> r == (table, Fail(TypeFunctionError))
    ensures |r.0| == |table|
  {
    if a.edges == a.meshes then (table, Fail(TypeFunctionError))
    else AxesFrom(table, ins, outs, a, 0)
  }

  /** Only the axes of the visited outputs change: of edges when edges are
      assigned, of meshes otherwise. */
  lemma {:induction false} AxesFromFrame(table: seq<Descriptor>, ins: seq<nat>, outs: seq<nat>, a: AxesArgs, j: nat)
    requires ParentsIn(table, ins) && ParentsIn(table, outs) && j <= Visited(ins, outs, a)
    ensures var r := AxesFrom(table, ins, outs, a, j).0;
            (forall h :: 0 <= h < |table| && h !in outs ==> r[h] == table[h]) &&
            (forall h :: 0 <= h < |table| ==>
               r[h].(axesEdges := table[h].axesEdges, axesMeshes := table[h].axesMeshes) == table[h]) &&
            (forall h :: 0 <= h < |table| && a.edges ==> r[h].axesMeshes == table[h].axesMeshes) &&
            (forall h :: 0 <= h < |table| && !a.edges ==> r[h].axesEdges == table[h].axesEdges)
    decreases |outs| - j
  {
    if j < Visited(ins, outs, a) {
      var o := outs[j];
      if !a.merge && a.ignoreNd && table[o].shape.None? {
      } else if !a.merge && a.ignoreNd && |table[o].shape.value| != 1 {
        AxesFromFrame(table, ins, outs, a, j + 1);
      } else {
        assert ParentsIn(table, ParentsFor(ins, outs, a, j));
        var s := AssignOne(table, ParentsFor(ins, outs, a, j), o, a);
        if s.Ok? {
          AxesFromFrame(s.value, ins, outs, a, j + 1);
        }
      }
    }
  }

  /** With the same parents for every output (merging, or a single input),
      a successful edges assignment leaves every visited output that had no
      edges with exactly those parents as edges. */
  lemma {:induction false} SameParentsAssigned(table: seq<Descriptor>, ins: seq<nat>, outs: seq<nat>, a: AxesArgs, j: nat, orig: seq<Descriptor>)
    requires ParentsIn(table, ins) && ParentsIn(table, outs) && j <= Visited(ins, outs, a)
    requires a.edges && !a.meshes && (a.merge || (|ins| == 1 && !a.ignoreNd))
    requires |orig| == |table|
    requires forall h :: 0 <= h < |table| ==> table[h].axesEdges == orig[h].axesEdges || table[h].axesEdges == Common(ins, a)
    requires AxesFrom(table, ins, outs, a, j).1.Pass?
    ensures var r := AxesFrom(table, ins, outs, a, j).0;
            forall k :: j <= k < |outs| && |table[outs[k]].axesEdges| == 0 ==> r[outs[k]].axesEdges == Common(ins, a)
    ensures var r := AxesFrom(table, ins, outs, a, j).0;
            forall h :: 0 <= h < |table| ==> r[h].axesEdges == orig[h].axesEdges || r[h].axesEdges == Common(ins, a)
    decreases |outs| - j
  {
    if j < Visited(ins, outs, a) {
      var o := outs[j];
      var p := Common(ins, a);
      assert ParentsFor(ins, outs, a, j) == p;
      assert ParentsIn(table, p);
      var s := AssignOne(table, p, o, a);
      var next := s.value;
      assert forall h :: 0 <= h < |table| ==> next[h].axesEdges == table[h].axesEdges || next[h].axesEdges == p;
      SameParentsAssigned(next, ins, outs, a, j + 1, orig);
      var r := AxesFrom(table, ins, outs, a, j).0;
      forall k | j <= k < |outs| && |table[outs[k]].axesEdges| == 0
        ensures r[outs[k]].axesEdges == p
      {
        if k == j || outs[k] == o {
          assert next[o].axesEdges == p;
          // later visits of the same output keep those edges or rewrite them
          SameParentsKept(next, ins, outs, a, j + 1, o);
        }
      }
    }
  }

  /** Once an output holds the common parents as edges, later visits keep
      them. */
  lemma {:induction false} SameParentsKept(table: seq<Descriptor>, ins: seq<nat>, outs: seq<nat>, a: AxesArgs, j: nat, o: nat)
    requires ParentsIn(table, ins) && ParentsIn(table, outs) && j <= Visited(ins, outs, a)
    requires a.edges && !a.meshes && (a.merge || (|ins| == 1 && !a.ignoreNd))
    requires o < |table| && table[o].axesEdges == Common(ins, a)
    requires AxesFrom(table, ins, outs, a, j).1.Pass?
    ensures AxesFrom(table, ins, outs, a, j).0[o].axesEdges == Common(ins, a)
    decreases |outs| - j
  {
    if j < Visited(ins, outs, a) {
      var p := Common(ins, a);
      assert ParentsFor(ins, outs, a, j) == p;
      assert ParentsIn(table, p);
      var next := AssignOne(table, p, outs[j], a).value;
      assert next[o].axesEdges == p;
      SameParentsKept(next, ins, outs, a, j + 1, o);
    }
  }

  /** `assign_axes_from_inputs_to_outputs` writing the table. */
  method AssignAxes(t: Table, ins: seq<nat>, outs: seq<nat>, a: AxesArgs) returns (res: Outcome)
    requires ParentsIn(t.dds, ins) && ParentsIn(t.dds, outs)
    modifies t
    ensures (t.dds, res) == AxesAssigned(old(t.dds), ins, outs, a)
  {
    if a.edges == a.meshes {
      return Fail(TypeFunctionError);
    }
    var table := t.dds;
    ghost var spec := AxesFrom(table, ins, outs, a, 0);
    var n := Visited(ins, outs, a);
    var j := 0;
    while j < n
      invariant j <= n && ParentsIn(table, ins) && ParentsIn(table, outs) && |table| == |t.dds|
      invariant spec == AxesFrom(table, ins, outs, a, j)
    {
      var o := outs[j];
      if !a.merge && a.ignoreNd {
        if table[o].shape.None? {
          t.dds := table;
          return Fail(TypeError);
        }
      }
      if !a.merge && a.ignoreNd && |table[o].shape.value| != 1 {
        j := j + 1;
      } else {
        var parents := ParentsFor(ins, outs, a, j);
        assert ParentsIn(table, parents);
        var r := AssignStep(table, parents, o, a);
        if r.Err? {
          t.dds := table;
          return Fail(r.error);
        }
        table := r.value;
        j := j + 1;
      }
    }
    t.dds := table;
    return Pass;
  }

  /** One visited output of the loop: its edges, or its meshes, assigned
      from the parents. */
  method AssignStep(table: seq<Descriptor>, parents: seq<nat>, o: nat, a: AxesArgs) returns (r: Result<seq<Descriptor>>)
    requires ParentsIn(table, parents) && o < |table|
    ensures r == AssignOne(table, parents, o, a)
  {
    var d := table[o];
    if a.edges {
      if a.overwrite.Some? || a.ignoreInconsistent.Some? {
        return Err(TypeError);
      }
      var e := EdgesAssigned(d, parents, table, Flag(a.ignoreAssigned));
      if e.Err? {
        return Err(e.error);
      }
      return Ok(table[o := e.value]);
    }
    var plan := MeshesPlan(d, parents, table, Flag(a.ignoreAssigned), Flag(a.overwrite), Flag(a.ignoreInconsistent));
    if plan.Err? {
      return Err(plan.error);
    }
    if plan.value {
      var meshes := parents;
      if Flag(a.overwrite) {
        meshes := Overwrite(d.axesMeshes, parents);
      }
      return Ok(table[o := d.(axesMeshes := meshes)]);
    }
    assert table == table[o := d];
    return Ok(table);
  }

  /** `copy_edges_from_inputs_to_outputs`: the edges of a single input go to
      every output, several inputs are paired with the outputs strictly. */
  method CopyEdges(t: Table, ins: seq<nat>, outs: seq<nat>) returns (res: Outcome)
    requires CopyTypes.InRange(t.dds, ins) && CopyTypes.InRange(t.dds, outs)
    modifies t
    ensures (t.dds, res) == CopyTypes.CopyEach(old(t.dds), ins, outs, CopyTypes.EdgesOnly)
  {
    res := CopyTypes.CopyLoop(t, CopyTypes.Sources(ins, |outs|), outs, CopyTypes.EdgesOnly);
  }
}
