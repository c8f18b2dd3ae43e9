/** The input validators of the type functions
    (src/dagflow/core/type_functions/input_type_functions.py) and the shape
    rules of the earlier revision dagflow/typefunctions.py that they share.

    A validator receives the data descriptors of the inputs a key selects, in
    the order `inputs.iter(key)` yields them, and either passes or raises.
    Where Python would apply `len` or an index to a missing shape the model
    raises TypeError, as Python does. */
module InputChecks {
  import opened Base
  import opened DataDescriptor
  import Edges

  /** `for x in xs: check(x)`: the first failure is raised. */
  function Each<T>(xs: seq<T>, check: T -> Outcome, j: nat): (r: Outcome)
    requires j <= |xs|
    ensures r.Pass? <==> forall k :: j <= k < |xs| ==> check(xs[k]).Pass?
    ensures r.Fail? ==> exists k :: j <= k < |xs| && check(xs[k]) == r
    decreases |xs| - j
  {
    if j == |xs| then Pass
    else if check(xs[j]).Fail? then check(xs[j])
    else Each(xs, check, j + 1)
  }

  /** `check_node_has_inputs(key, check_named)`: without a key (or with
      the slice of all positionals) the node must have a first positional
      input, or with `check_named` at least one keyword input; with a key,
      looking it up must succeed. */
  function HasInputs(e: Edges.Edges, key: Option<Edges.Key>, checkNamed: bool): (r: Outcome)
    ensures key.None? ==> (r.Pass? <==> |e.posList| > 0 || (checkNamed && Edges.LenKw(e) > 0))
    ensures key.Some? && !key.value.KSlice? ==> (r.Pass? <==> Edges.GetItem(e, key.value).Ok?)
    ensures r.Fail? ==> r.error == TypeFunctionError
  {
    if key.None? || key.value == Edges.KSlice(None, None, None) then
      if Edges.GetItem(e, Edges.KInt(0)).Ok? then Pass
      else if !checkNamed || Edges.LenKw(e) == 0 then Fail(TypeFunctionError)
      else Pass
    else if Edges.GetItem(e, key.value).Ok? then Pass
    else Fail(TypeFunctionError)
  }

  /** `check_number_of_inputs(n)`: `len(inputs)` is the positional count. */
  function NumberOfInputs(lenPos: nat, n: int): (r: Outcome)
    ensures r.Pass? <==> lenPos == n
    ensures r.Fail? ==> r.error == TypeFunctionError
  {
    Need(lenPos == n, TypeFunctionError)
  }

  /** The number of axes, or TypeError for a missing shape. */
  function DimOf(d: Descriptor): (r: Result<nat>)
  {
    if d.shape.None? then Err(TypeError) else Ok(|d.shape.value|)
  }

  function DimIs(d: Descriptor, ndim: int): (r: Outcome)
  {
    if d.shape.None? then Fail(TypeError)
    else Need(|d.shape.value| == ndim, TypeFunctionError)
  }

  /** `check_dimension_of_inputs(ndim)`: every input has `ndim` axes. */
  function Dimensions(dds: seq<Descriptor>, ndim: int): (r: Outcome)
    ensures r.Pass? <==> forall k :: 0 <= k < |dds| ==> dds[k].shape.Some? && |dds[k].shape.value| == ndim
    ensures r.Fail? ==> r.error == TypeError || r.error == TypeFunctionError
  {
    var r := Each(dds, d => DimIs(d, ndim), 0);
    assert r.Pass? <==> forall k :: 0 <= k < |dds| ==> DimIs(dds[k], ndim).Pass?;
    r
  }

  /** `check_shape_of_inputs(*shapes)`: every input's shape is one of the
      allowed ones. */
  function Shapes(dds: seq<Descriptor>, shapes: seq<Option<seq<nat>>>): (r: Outcome)
    ensures r.Pass? <==> forall k :: 0 <= k < |dds| ==> dds[k].shape in shapes
    ensures r.Fail? ==> r.error == TypeFunctionError
  {
    var r := Each(dds, (d: Descriptor) => Need(d.shape in shapes, TypeFunctionError), 0);
    assert r.Fail? ==> exists k :: 0 <= k < |dds| && Need(dds[k].shape in shapes, TypeFunctionError) == r;
    r
  }

  /** The size against `min` and `max`; comparing a missing size raises
      TypeError. */
  function SizeWithin(d: Descriptor, min: Option<int>, max: Option<int>): (r: Outcome)
  {
    var size := Size(d);
    if min.Some? && size.None? then Fail(TypeError)
    else if min.Some? && size.value < min.value then Fail(TypeFunctionError)
    else if max.Some? && size.None? then Fail(TypeError)
    else if max.Some? && size.value > max.value then Fail(TypeFunctionError)
    else Pass
  }

  /** `size != exact` is false: a missing size never equals a number. */
  predicate ExactSize(d: Descriptor, exact: int)
  {
    Size(d).Some? && Size(d).value == exact
  }

  /** `check_size_of_inputs(exact, min, max)`: with `exact` every size must
      equal it; otherwise at least one bound must be given and every size
      lies within the bounds given. */
  function Sizes(dds: seq<Descriptor>, exact: Option<int>, min: Option<int>, max: Option<int>): (r: Outcome)
    ensures exact.Some? ==> (r.Pass? <==> forall k :: 0 <= k < |dds| ==> ExactSize(dds[k], exact.value))
    ensures exact.None? && min.None? && max.None? ==> r == Fail(TypeFunctionError)
    ensures exact.None? && (min.Some? || max.Some?) ==>
              (r.Pass? <==> forall k :: 0 <= k < |dds| ==>
                              Size(dds[k]).Some? &&
                              (min.Some? ==> Size(dds[k]).value >= min.value) &&
                              (max.Some? ==> Size(dds[k]).value <= max.value))
    ensures r.Fail? ==> r.error == TypeError || r.error == TypeFunctionError
  {
    if exact.Some? then
      var r := Each(dds, (d: Descriptor) => Need(ExactSize(d, exact.value), TypeFunctionError), 0);
      assert r.Fail? ==> exists k :: 0 <= k < |dds| && Need(ExactSize(dds[k], exact.value), TypeFunctionError) == r;
      r
    else if min.None? && max.None? then Fail(TypeFunctionError)
    else
      var r := Each(dds, d => SizeWithin(d, min, max), 0);
      assert r.Pass? <==> forall k :: 0 <= k < |dds| ==> SizeWithin(dds[k], min, max).Pass?;
      r
  }

  /** `check_dtype_of_inputs(dtype)`: every input has that dtype. */
  function Dtypes(dds: seq<Descriptor>, dtype: Option<DType>): (r: Outcome)
    ensures r.Pass? <==> forall k :: 0 <= k < |dds| ==> dds[k].dtype == dtype
    ensures r.Fail? ==> r.error == TypeFunctionError
  {
    var r := Each(dds, (d: Descriptor) => Need(d.dtype == dtype, TypeFunctionError), 0);
    assert r.Fail? ==> exists k :: 0 <= k < |dds| && Need(dds[k].dtype == dtype, TypeFunctionError) == r;
    r
  }

  /** A square matrix: two axes of equal length. */
  predicate Square(s: seq<nat>)
  {
    |s| == 2 && s[0] == s[1]
  }

  function SquareOne(d: Descriptor): (r: Outcome)
  {
    if d.shape.None? then Fail(TypeError) else Need(Square(d.shape.value), TypeFunctionError)
  }

  /** `check_inputs_are_square_matrices` (and `check_input_square` of the
      earlier revision): every input is a square matrix. */
  function SquareMatrices(dds: seq<Descriptor>): (r: Outcome)
    ensures r.Pass? <==> forall k :: 0 <= k < |dds| ==> dds[k].shape.Some? && Square(dds[k].shape.value)
  {
    var r := Each(dds, SquareOne, 0);
    assert r.Pass? <==> forall k :: 0 <= k < |dds| ==> SquareOne(dds[k]).Pass?;
    r
  }

  /** `_check_input_block_or_diag`: a 1-d diagonal or a 2-d matrix (square
      when asked); the result is the number of axes. */
  function BlockOrDiag(d: Descriptor, checkSquare: bool): (r: Result<nat>)
    ensures r.Ok? <==> d.shape.Some? && (|d.shape.value| == 1 || (|d.shape.value| == 2 && (checkSquare ==> Square(d.shape.value))))
    ensures r.Ok? ==> r.value == |d.shape.value|
  {
    if d.shape.None? then Err(TypeError)
    else
      var shape := d.shape.value;
      if |shape| > 2 then Err(TypeFunctionError)
      else if |shape| == 2 then
        if checkSquare && shape[0] != shape[1] then Err(TypeFunctionError) else Ok(2)
      else if |shape| != 1 then Err(TypeFunctionError)
      else Ok(1)
  }

  function Max(a: nat, b: nat): (r: nat)
    ensures r >= a && r >= b && (r == a || r == b)
  {
    if a >= b then a else b
  }

  /** `check_inputs_are_matrices_or_diagonals`: every input is a diagonal
      or a matrix (square when asked); the result is the largest number of
      axes, 1 or 2, or 0 when the key selects no input. */
  method MatricesOrDiagonals(dds: seq<Descriptor>, checkSquare: bool) returns (r: Result<nat>)
    ensures r.Ok? <==> forall k :: 0 <= k < |dds| ==> BlockOrDiag(dds[k], checkSquare).Ok?
    ensures r.Err? ==> exists k :: 0 <= k < |dds| && BlockOrDiag(dds[k], checkSquare) == Err(r.error)
    ensures r.Ok? ==> r.value <= 2 && (r.value == 0 <==> |dds| == 0)
    ensures r.Ok? ==> forall k :: 0 <= k < |dds| ==> |dds[k].shape.value| <= r.value
    ensures r.Ok? && |dds| > 0 ==> exists k :: 0 <= k < |dds| && |dds[k].shape.value| == r.value
  {
    var dimMax := 0;
    var i := 0;
    while i < |dds|
      invariant 0 <= i <= |dds| && dimMax <= 2
      invariant forall k :: 0 <= k < i ==> BlockOrDiag(dds[k], checkSquare).Ok? && |dds[k].shape.value| <= dimMax
      invariant dimMax == 0 <==> i == 0
      invariant i > 0 ==> exists k :: 0 <= k < i && |dds[k].shape.value| == dimMax
    {
      var dim := BlockOrDiag(dds[i], checkSquare);
      if dim.Err? {
        return Err(dim.error);
      }
      dimMax := Max(dim.value, dimMax);
      i := i + 1;
    }
    return Ok(dimMax);
  }

  /** The length of the first axis, as `shape[0]` reads it. */
  function FirstAxis(d: Descriptor): (r: Result<nat>)
    ensures r.Ok? <==> d.shape.Some? && |d.shape.value| > 0
    ensures r.Ok? ==> r.value == d.shape.value[0]
  {
    if d.shape.None? then Err(TypeError)
    else if |d.shape.value| == 0 then Err(IndexError)
    else Ok(d.shape.value[0])
  }

  /** The length of the last axis, as `shape[-1]` reads it. */
  function LastAxis(d: Descriptor): (r: Result<nat>)
    ensures r.Ok? <==> d.shape.Some? && |d.shape.value| > 0
    ensures r.Ok? ==> r.value == d.shape.value[|d.shape.value| - 1]
  {
    if d.shape.None? then Err(TypeError)
    else if |d.shape.value| == 0 then Err(IndexError)
    else Ok(d.shape.value[|d.shape.value| - 1])
  }

  /** `check_inputs_consistency_with_square_matrices_or_diagonals`: every
      input is a square matrix or a diagonal, all with the first axis of the
      first input; selecting no input raises IndexError.  The result is the
      largest number of axes. */
  method ConsistentSquareOrDiag(dds: seq<Descriptor>) returns (r: Result<nat>)
    ensures |dds| == 0 ==> r == Err(IndexError)
    ensures r.Ok? <==> |dds| > 0 && FirstAxis(dds[0]).Ok? &&
                       forall k :: 0 <= k < |dds| ==> BlockOrDiag(dds[k], true).Ok? && FirstAxis(dds[k]) == FirstAxis(dds[0])
    ensures r.Ok? ==> 1 <= r.value <= 2 && (forall k :: 0 <= k < |dds| ==> |dds[k].shape.value| <= r.value)
  {
    if |dds| == 0 {
      return Err(IndexError);
    }
    var first := FirstAxis(dds[0]);
    if first.Err? {
      return Err(first.error);
    }
    var shape0 := first.value;
    var dimMax := 0;
    var i := 0;
    while i < |dds|
      invariant 0 <= i <= |dds| && dimMax <= 2 && (i > 0 ==> dimMax >= 1)
      invariant forall k :: 0 <= k < i ==> BlockOrDiag(dds[k], true).Ok? && FirstAxis(dds[k]) == first
      invariant forall k :: 0 <= k < i ==> |dds[k].shape.value| <= dimMax
    {
      var dim := BlockOrDiag(dds[i], true);
      if dim.Err? {
        return Err(dim.error);
      }
      dimMax := Max(dim.value, dimMax);
      if dds[i].shape.value[0] != shape0 {
        return Err(TypeFunctionError);
      }
      i := i + 1;
    }
    return Ok(dimMax);
  }

  /** `shapes_are_broadcastable`: aligned from the last axis, each pair of
      lengths is equal or one of them is 1; axes beyond the shorter shape
      are not compared. */
  predicate Broadcastable(s1: seq<nat>, s2: seq<nat>)
  {
    forall i :: 0 <= i < |s1| && i < |s2| ==>
      FromEnd(s1, i) == 1 || FromEnd(s2, i) == 1 || FromEnd(s1, i) == FromEnd(s2, i)
  }

  /** Broadcasting is symmetric, every shape broadcasts with itself and
      with the scalar shape. */
  lemma BroadcastableBasics(s1: seq<nat>, s2: seq<nat>)
    ensures Broadcastable(s1, s2) <==> Broadcastable(s2, s1)
    ensures Broadcastable(s1, s1) && Broadcastable(s1, []) && Broadcastable([], s1)
  {
  }

  /** A leading axis of length 1 changes nothing. */
  lemma BroadcastableLeadingOne(s1: seq<nat>, s2: seq<nat>)
    ensures Broadcastable([1] + s1, s2) <==> Broadcastable(s1, s2)
  {
    var t := [1] + s1;
    forall i | 0 <= i < |s1|
      ensures FromEnd(t, i) == FromEnd(s1, i)
    {
      assert t[|t| - 1 - i] == s1[|s1| - 1 - i];
    }
    if Broadcastable(s1, s2) {
      forall i | 0 <= i < |t| && i < |s2|
        ensures FromEnd(t, i) == 1 || FromEnd(s2, i) == 1 || FromEnd(t, i) == FromEnd(s2, i)
      {
        if i == |s1| {
          assert FromEnd(t, i) == t[0] == 1;
        }
      }
    }
  }

  /** Which properties `check_inputs_equivalence` compares. */
  datatype EquivFlags = EquivFlags(
    dtype: bool, shape: bool, edges: bool, edgesContents: bool,
    meshes: bool, meshesContents: bool, broadcastable: bool)

  /** The defaults of `check_inputs_equivalence`. */
  const DefaultEquiv := EquivFlags(true, true, true, false, false, false, false)

  /** `allclose` for every pair of axis outputs `zip` forms; `close` says
      whether the data of two outputs agree within the tolerance. */
  predicate AllClose(a: seq<int>, b: seq<int>, close: (int, int) -> bool)
  {
    forall i :: 0 <= i < |a| && i < |b| ==> close(a[i], b[i])
  }

  /** Two lists of axis outputs agree when either is empty, they are the
      same outputs, or (when contents are compared) their data are close. */
  predicate AxesAgree(a: seq<int>, b: seq<int>, contents: bool, close: (int, int) -> bool)
  {
    |a| == 0 || |b| == 0 || a == b || (contents && AllClose(a, b, close))
  }

  /** The consistency of input `d` with the first input `d0`. */
  predicate Agrees(d0: Descriptor, d: Descriptor, f: EquivFlags, close: (int, int) -> bool)
  {
    (f.dtype ==> d.dtype == d0.dtype) &&
    (f.shape && !f.broadcastable ==> d.shape == d0.shape) &&
    (f.shape && f.broadcastable ==> d0.shape.Some? && d.shape.Some? && Broadcastable(d0.shape.value, d.shape.value)) &&
    (f.edges ==> AxesAgree(d0.axesEdges, d.axesEdges, f.edgesContents, close)) &&
    (f.meshes ==> AxesAgree(d0.axesMeshes, d.axesMeshes, f.meshesContents, close))
  }

  /** One turn of the loop of `check_inputs_equivalence`: broadcasting a
      missing shape raises TypeError before anything else is reported. */
  function EquivOne(d0: Descriptor, d: Descriptor, f: EquivFlags, close: (int, int) -> bool): (r: Outcome)
    ensures r.Pass? <==> Agrees(d0, d, f, close)
    ensures r.Fail? ==> r.error == TypeError || r.error == TypeFunctionError
  {
    var dtypeBad := f.dtype && d.dtype != d0.dtype;
    if f.shape && f.broadcastable && (d0.shape.None? || d.shape.None?) then Fail(TypeError)
    else
      var shapeBad := f.shape && (if f.broadcastable then !Broadcastable(d0.shape.value, d.shape.value) else d.shape != d0.shape);
      var edgesBad := f.edges && |d.axesEdges| > 0 && |d0.axesEdges| > 0 && d.axesEdges != d0.axesEdges
                      && (f.edgesContents ==> !AllClose(d0.axesEdges, d.axesEdges, close));
      var meshesBad := f.meshes && |d.axesMeshes| > 0 && |d0.axesMeshes| > 0 && d.axesMeshes != d0.axesMeshes
                       && (f.meshesContents ==> !AllClose(d0.axesMeshes, d.axesMeshes, close));
      Need(!(dtypeBad || shapeBad || edgesBad || meshesBad), TypeFunctionError)
  }

  /** `check_inputs_equivalence`: every input after the first agrees with
      the first one; selecting no input raises IndexError. */
  function Equivalence(dds: seq<Descriptor>, f: EquivFlags, close: (int, int) -> bool): (r: Outcome)
    ensures |dds| == 0 <==> r == Fail(IndexError)
    ensures r.Pass? <==> |dds| > 0 && forall k :: 1 <= k < |dds| ==> Agrees(dds[0], dds[k], f, close)
  {
    if |dds| == 0 then Fail(IndexError)
    else
      var r := Each(dds, (d: Descriptor) => EquivOne(dds[0], d, f, close), 1);
      assert r.Fail? ==> exists k :: 1 <= k < |dds| && EquivOne(dds[0], dds[k], f, close) == r;
      r
  }

  /** With the defaults: the same dtype and shape as the first input, and
      the same edge outputs unless one side has none. */
  lemma DefaultEquivalence(dds: seq<Descriptor>, close: (int, int) -> bool)
    requires |dds| > 0
    ensures Equivalence(dds, DefaultEquiv, close).Pass? <==>
            forall k :: 1 <= k < |dds| ==>
              dds[k].dtype == dds[0].dtype && dds[k].shape == dds[0].shape &&
              (dds[k].axesEdges == [] || dds[0].axesEdges == [] || dds[k].axesEdges == dds[0].axesEdges)
  {
  }

  /** Asking for broadcasting only relaxes the shape comparison, once the
      shapes are known. */
  lemma BroadcastingRelaxes(dds: seq<Descriptor>, f: EquivFlags, close: (int, int) -> bool)
    requires !f.broadcastable && Equivalence(dds, f, close).Pass?
    requires forall k :: 0 <= k < |dds| ==> dds[k].shape.Some?
    ensures Equivalence(dds, f.(broadcastable := true), close).Pass?
  {
    forall k | 1 <= k < |dds|
      ensures Agrees(dds[0], dds[k], f.(broadcastable := true), close)
    {
      assert Agrees(dds[0], dds[k], f, close);
      BroadcastableBasics(dds[0].shape.value, dds[0].shape.value);
    }
  }

  /** Comparing the contents of axes only relaxes the comparison of the
      axis outputs. */
  lemma ContentsRelax(dds: seq<Descriptor>, f: EquivFlags, close: (int, int) -> bool)
    requires Equivalence(dds, f, close).Pass?
    ensures Equivalence(dds, f.(edgesContents := true, meshesContents := true), close).Pass?
  {
    forall k | 1 <= k < |dds|
      ensures Agrees(dds[0], dds[k], f.(edgesContents := true, meshesContents := true), close)
    {
      assert Agrees(dds[0], dds[k], f, close);
    }
  }

  /** `check_inputs_have_same_dtype`: the dtype shared by all inputs. */
  function SameDtype(dds: seq<Descriptor>): (r: Result<Option<DType>>)
    ensures |dds| == 0 ==> r == Err(IndexError)
    ensures r.Ok? <==> |dds| > 0 && forall k :: 0 <= k < |dds| ==> dds[k].dtype == dds[0].dtype
    ensures r.Ok? ==> r.value == dds[0].dtype
  {
    if |dds| == 0 then Err(IndexError)
    else
      var o := Each(dds, (d: Descriptor) => Need(d.dtype == dds[0].dtype, TypeFunctionError), 1);
      if o.Pass? then Ok(dds[0].dtype) else Err(o.error)
  }

  /** `check_inputs_have_same_shape`: the shape shared by all inputs. */
  function SameShape(dds: seq<Descriptor>): (r: Result<Option<seq<nat>>>)
    ensures |dds| == 0 ==> r == Err(IndexError)
    ensures r.Ok? <==> |dds| > 0 && forall k :: 0 <= k < |dds| ==> dds[k].shape == dds[0].shape
    ensures r.Ok? ==> r.value == dds[0].shape
  {
    if |dds| == 0 then Err(IndexError)
    else
      var o := Each(dds, (d: Descriptor) => Need(d.shape == dds[0].shape, TypeFunctionError), 1);
      if o.Pass? then Ok(dds[0].shape) else Err(o.error)
  }

  /** The two checks are `check_inputs_equivalence` with only the dtype,
      respectively only the shape, compared. */
  lemma SameDtypeShapeAreEquivalence(dds: seq<Descriptor>, close: (int, int) -> bool)
    ensures SameDtype(dds).Ok? <==> Equivalence(dds, EquivFlags(true, false, false, false, false, false, false), close).Pass?
    ensures SameShape(dds).Ok? <==> Equivalence(dds, EquivFlags(false, true, false, false, false, false, false), close).Pass?
  {
  }

  /** `check_subtype_of_inputs(dtype)`; `isSub` is numpy's `issubdtype`
      against the required dtype. */
  function Subtype(dds: seq<Descriptor>, isSub: Option<DType> -> bool): (r: Outcome)
    ensures r.Pass? <==> forall k :: 0 <= k < |dds| ==> isSub(dds[k].dtype)
    ensures r.Fail? ==> r.error == TypeFunctionError
  {
    var r := Each(dds, (d: Descriptor) => Need(isSub(d.dtype), TypeFunctionError), 0);
    assert r.Fail? ==> exists k :: 0 <= k < |dds| && Need(isSub(dds[k].dtype), TypeFunctionError) == r;
    r
  }

  /** The two input lists of `check_inputs_are_matrix_multipliable` after
      a single input on one side is repeated for every input of the other. */
  function Paired(d1s: seq<Descriptor>, d2s: seq<Descriptor>): (r: (seq<Descriptor>, seq<Descriptor>))
    ensures |d1s| == |d2s| ==> r == (d1s, d2s)
    ensures |d1s| != |d2s| && |d1s| == 1 ==> r.1 == d2s && |r.0| == |d2s| && forall i :: 0 <= i < |d2s| ==> r.0[i] == d1s[0]
    ensures |d1s| != |d2s| && |d1s| != 1 && |d2s| == 1 ==> r.0 == d1s && |r.1| == |d1s| && forall i :: 0 <= i < |d1s| ==> r.1[i] == d2s[0]
    ensures |d1s| != |d2s| && |d1s| != 1 && |d2s| != 1 ==> r == (d1s, d2s)
  {
    if |d1s| == |d2s| then (d1s, d2s)
    else if |d1s| == 1 then (seq(|d2s|, _ => d1s[0]), d2s)
    else if |d2s| == 1 then (d1s, seq(|d1s|, _ => d2s[0]))
    else (d1s, d2s)
  }

  /** The loop over `zip(inputs1, inputs2, strict=True)` from pair `j` on:
      each pair is checked before the strict zip notices, at the end of the
      shorter list, that the lengths differ. */
  function MulShapes(a: seq<Descriptor>, b: seq<Descriptor>, j: nat): (r: Result<seq<(nat, nat)>>)
    requires j <= |a| && j <= |b|
    ensures r.Ok? ==> |a| == |b| && |r.value| == |a| - j
    ensures r.Ok? ==> forall i :: j <= i < |a| ==>
              LastAxis(a[i]).Ok? && FirstAxis(b[i]) == LastAxis(a[i]) &&
              r.value[i - j] == (a[i].shape.value[0], b[i].shape.value[|b[i].shape.value| - 1])
    ensures |a| == |b| && (forall i :: j <= i < |a| ==> LastAxis(a[i]).Ok? && FirstAxis(b[i]) == LastAxis(a[i])) ==> r.Ok?
    ensures |a| != |b| && (forall i :: j <= i < |a| && i < |b| ==> LastAxis(a[i]).Ok? && FirstAxis(b[i]) == LastAxis(a[i])) ==> r == Err(ValueError)
    decreases |a| - j
  {
    if j == |a| || j == |b| then
      if |a| != |b| then Err(ValueError) else Ok([])
    else
      match LastAxis(a[j])
      case Err(e) => Err(e)
      case Ok(last) =>
        match FirstAxis(b[j])
        case Err(e) => Err(e)
        case Ok(first) =>
          if last != first then Err(TypeFunctionError)
          else
            match MulShapes(a, b, j + 1)
            case Err(e) => Err(e)
            case Ok(rest) => Ok([(a[j].shape.value[0], b[j].shape.value[|b[j].shape.value| - 1])] + rest)
  }

  /** `check_inputs_are_matrix_multipliable`: the shape of every product,
      rows of the left factor by columns of the right one. */
  function MatrixMultipliable(d1s: seq<Descriptor>, d2s: seq<Descriptor>): (r: Result<seq<(nat, nat)>>)
    ensures var (a, b) := Paired(d1s, d2s);
            r.Ok? <==> |a| == |b| && forall i :: 0 <= i < |a| ==> LastAxis(a[i]).Ok? && FirstAxis(b[i]) == LastAxis(a[i])
    ensures r.Ok? ==> |r.value| == if |d1s| == 0 || |d2s| == 0 then 0 else Max(|d1s|, |d2s|)
  {
    var (a, b) := Paired(d1s, d2s);
    MulShapes(a, b, 0)
  }

  /** With one left factor, every right factor is multiplied by it. */
  lemma SingleLeftFactor(d1: Descriptor, d2s: seq<Descriptor>, i: nat)
    requires MatrixMultipliable([d1], d2s).Ok? && i < |d2s|
    ensures MatrixMultipliable([d1], d2s).value[i] == (d1.shape.value[0], d2s[i].shape.value[|d2s[i].shape.value| - 1])
    ensures d1.shape.value[|d1.shape.value| - 1] == d2s[i].shape.value[0]
  {
    var (a, b) := Paired([d1], d2s);
    assert a[i] == d1;
  }

  /** `find_max_size_of_inputs`: the largest size; comparing a missing
      size raises TypeError, so only a single input may have none. */
  method MaxSize(dds: seq<Descriptor>) returns (r: Result<Option<nat>>)
    ensures |dds| == 0 ==> r == Err(IndexError)
    ensures |dds| == 1 ==> r == Ok(Size(dds[0]))
    ensures |dds| > 1 ==> (r.Ok? <==> forall k :: 0 <= k < |dds| ==> Size(dds[k]).Some?)
    ensures |dds| > 1 && r.Err? ==> r.error == TypeError
    ensures |dds| > 1 && r.Ok? ==> r.value.Some?
    ensures |dds| > 1 && r.Ok? ==> forall k :: 0 <= k < |dds| ==> Size(dds[k]).value <= r.value.value
    ensures |dds| > 1 && r.Ok? ==> exists k :: 0 <= k < |dds| && Size(dds[k]) == r.value
  {
    if |dds| == 0 {
      return Err(IndexError);
    }
    var size := Size(dds[0]);
    var i := 1;
    while i < |dds|
      invariant 1 <= i <= |dds|
      invariant i == 1 ==> size == Size(dds[0])
      invariant i > 1 ==> size.Some? && forall k :: 0 <= k < i ==> Size(dds[k]).Some? && Size(dds[k]).value <= size.value
      invariant exists k :: 0 <= k < i && Size(dds[k]) == size
    {
      var y := Size(dds[i]);
      if y.None? || size.None? {
        return Err(TypeError);
      }
      if y.value > size.value {
        size := y;
      }
      i := i + 1;
    }
    return Ok(size);
  }

  /** `check_inputs_number_is_divisible_by_N`: `N == 1` passes at once;
      `N == 0` divides by zero. */
  function DivisibleByN(n: nat, N: int): (r: Outcome)
    ensures r.Pass? <==> N != 0 && n % N == 0
    ensures r.Fail? ==> r.error == (if N == 0 then ZeroDivisionError else TypeFunctionError)
  {
    if N == 1 then Pass
    else if N == 0 then Fail(ZeroDivisionError)
    else Need(n % N == 0, TypeFunctionError)
  }

  /** `check_inputs_multiplicity` of the earlier revision, without the
      shortcut for `N == 1`. */
  function Multiplicity(n: nat, N: int): (r: Outcome)
    ensures r.Pass? <==> N != 0 && n % N == 0
    ensures r.Fail? ==> r.error == (if N == 0 then ZeroDivisionError else TypeFunctionError)
  {
    if N == 0 then Fail(ZeroDivisionError)
    else Need(n % N == 0, TypeFunctionError)
  }

  /** The shortcut changes nothing: both revisions decide every count and
      every `N` alike. */
  lemma DivisibleAgreesWithMultiplicity(n: nat, N: int)
    ensures DivisibleByN(n, N) == Multiplicity(n, N)
  {
  }
}
