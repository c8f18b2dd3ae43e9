/** The data descriptor of an input or output: dtype, shape and the outputs
    that carry its axes' edges and meshes (dagflow/core/data_descriptor.py).

    A descriptor is a value here; the ports that own one replace it as a whole
    when a field is set. */
module DataDescriptor {
  import opened Base

  /** numpy dtypes are opaque tags. */
  type DType = nat

  /** An ndarray as the engine sees it: dtype, shape and row-major contents. */
  datatype Array = Array(dtype: DType, shape: seq<nat>, flat: seq<real>)

  /** `axesEdges` and `axesMeshes` hold handles of the outputs that carry them. */
  datatype Descriptor = Descriptor(
    dtype: Option<DType>,
    shape: Option<seq<nat>>,
    axesEdges: seq<int>,
    axesMeshes: seq<int>,
    edgesInherited: bool,
    meshesInherited: bool)

  function OrEmpty(s: Option<seq<int>>): seq<int>
  {
    if s.Some? then s.value else []
  }

  /** The constructor: edges and meshes default to empty tuples, both inherited flags are set. */
  function New(dtype: Option<DType>, shape: Option<seq<nat>>, edges: Option<seq<int>>, meshes: Option<seq<int>>): (d: Descriptor)
    ensures d.dtype == dtype && d.shape == shape
    ensures edges.None? ==> d.axesEdges == []
    ensures meshes.None? ==> d.axesMeshes == []
    ensures edges.Some? ==> d.axesEdges == edges.value
    ensures meshes.Some? ==> d.axesMeshes == meshes.value
    ensures d.edgesInherited && d.meshesInherited
  {
    Descriptor(dtype, shape, OrEmpty(edges), OrEmpty(meshes), true, true)
  }

  /** `dim`: the number of axes; `len(None)` raises TypeError. */
  function Dim(d: Descriptor): (r: Result<nat>)
    ensures r.Ok? <==> d.shape.Some?
    ensures r.Ok? ==> r.value == |d.shape.value|
  {
    if d.shape.Some? then Ok(|d.shape.value|) else Err(TypeError)
  }

  /** `size`: the product of the shape, 1 for the 0-d shape, None without a shape. */
  function Size(d: Descriptor): (r: Option<nat>)
    ensures r.Some? <==> d.shape.Some?
    ensures d.shape == Some([]) ==> r == Some(1)
  {
    if d.shape.Some? then Some(Prod(d.shape.value)) else None
  }

  /** A size is zero exactly when some axis has length zero. */
  lemma {:induction false} ProdZeroIff(s: seq<nat>)
    ensures Prod(s) == 0 <==> exists i :: 0 <= i < |s| && s[i] == 0
  {
    if s != [] {
      var init := s[..|s| - 1];
      ProdZeroIff(init);
      assert forall i :: 0 <= i < |init| ==> init[i] == s[i];
      if Prod(s) == 0 && s[|s| - 1] != 0 {
        var i :| 0 <= i < |init| && init[i] == 0;
        assert s[i] == 0;
      }
    }
  }

  /** The size of a concatenation of shapes is the product of their sizes. */
  lemma {:induction false} ProdAppend(a: seq<nat>, b: seq<nat>)
    ensures Prod(a + b) == Prod(a) * Prod(b)
  {
    if b != [] {
      var b' := b[..|b| - 1];
      assert (a + b)[..|a + b| - 1] == a + b';
      ProdAppend(a, b');
      calc {
        Prod(a + b);
        Prod(a + b') * b[|b| - 1];
        Prod(a) * Prod(b') * b[|b| - 1];
        Prod(a) * Prod(b);
      }
    } else {
      assert a + b == a;
    }
  }

  /** `consistent_with`: same shape and same dtype as the array. */
  predicate ConsistentWith(d: Descriptor, a: Array)
  {
    d.shape == Some(a.shape) && d.dtype == Some(a.dtype)
  }

  /** The descriptor of an array after `dd.dtype = data.dtype; dd.shape = data.shape`. */
  function Adopt(d: Descriptor, a: Array): (r: Descriptor)
    ensures ConsistentWith(r, a)
    ensures r.axesEdges == d.axesEdges && r.axesMeshes == d.axesMeshes
    ensures r.edgesInherited == d.edgesInherited && r.meshesInherited == d.meshesInherited
  {
    d.(dtype := Some(a.dtype), shape := Some(a.shape))
  }

  /** A descriptor is consistent with an array exactly when adopting the
      array's dtype and shape would change nothing, and then every array it
      is consistent with has that dtype and shape. */
  lemma ConsistentIsAdopted(d: Descriptor, a: Array, b: Array)
    ensures ConsistentWith(d, a) <==> Adopt(d, a) == d
    ensures ConsistentWith(d, a) && ConsistentWith(d, b) ==> a.shape == b.shape && a.dtype == b.dtype
  {
  }

  /** Python sequence indexing: a negative index counts from the end. */
  function PyIndex(len: nat, i: int): (r: Option<nat>)
    ensures r.Some? <==> -(len as int) <= i < len
    ensures r.Some? ==> r.value < len && (r.value == i || r.value == i + len)
  {
    if 0 <= i < len then Some(i) else if -(len as int) <= i < 0 then Some(i + len) else None
  }

  datatype AxisType = AnyAxis | EdgesAxis | MeshAxis

  /** Which output provides an axis label. */
  datatype AxisSource = FromEdges(edgesOutput: int) | FromMesh(meshOutput: int)

  /** `axis_label`: the label comes from the edges output of that axis when
      edges are set and requested, else from the mesh output; an index out of
      range raises RuntimeError; with neither set the label is None.  The
      label text itself belongs to the output's labels and is not modelled:
      the result names the output it is read from. */
  function AxisLabel(d: Descriptor, axis: int, axistype: AxisType): (r: Result<Option<AxisSource>>)
    ensures d.axesEdges != [] && axistype != MeshAxis ==>
      (r.Ok? <==> PyIndex(|d.axesEdges|, axis).Some?) &&
      (r.Ok? ==> r.value.Some? && r.value.value.FromEdges?)
    ensures r.Ok? && r.value.Some? && r.value.value.FromMesh? ==>
      d.axesMeshes != [] && axistype != EdgesAxis && (d.axesEdges == [] || axistype == MeshAxis)
    ensures r == Ok(None) <==>
      (d.axesEdges == [] || axistype == MeshAxis) && (d.axesMeshes == [] || axistype == EdgesAxis)
    ensures r.Err? ==> r.error == RuntimeError
  {
    if d.axesEdges != [] && axistype != MeshAxis then
      match PyIndex(|d.axesEdges|, axis)
      case Some(k) => Ok(Some(FromEdges(d.axesEdges[k])))
      case None => Err(RuntimeError)
    else if d.axesMeshes != [] && axistype != EdgesAxis then
      match PyIndex(|d.axesMeshes|, axis)
      case Some(k) => Ok(Some(FromMesh(d.axesMeshes[k])))
      case None => Err(RuntimeError)
    else
      Ok(None)
  }

  /** The data descriptors of a node's outputs, indexed by output handle.
      An input reads the descriptor of its parent output, so the type
      functions that write `output.dd` work on this table. */
  class Table {
    var dds: seq<Descriptor>

    constructor(dds: seq<Descriptor>)
      ensures this.dds == dds
    {
      this.dds := dds;
    }
  }
}
