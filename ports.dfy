/** The data an input or an output holds, and the operations on one port
    that create, replace or allocate it (src/dagflow/core/input.py,
    src/dagflow/core/output.py).

    ndarrays live in a buffer store `bufs`; a port refers to its array by
    number, so two ports holding the same number share one array, as two
    Python references to one ndarray do.  Operations append new arrays to the
    store and never remove one; a number outside the store reads as no
    array (no operation creates one). */
module Ports {
  import opened Base
  import opened DataDescriptor

  /** An input's own buffer, used when the input allocates for its parent. */
  datatype InState = InState(allocatable: bool, ownData: Option<nat>, ownsBuffer: bool, ownDd: Descriptor)

  /** An output's data, its descriptor and its buffer options. */
  datatype OutState = OutState(
    allocatable: bool,
    data: Option<nat>,
    ownsBuffer: bool,
    forbidRealloc: bool,
    dd: Descriptor)

  /** numpy `zeros(shape, dtype)`. */
  function Zeros(dtype: DType, shape: seq<nat>): (a: Array)
    ensures a.dtype == dtype && a.shape == shape && |a.flat| == Prod(shape)
    ensures forall k :: 0 <= k < |a.flat| ==> a.flat[k] == 0.0
  {
    Array(dtype, shape, seq(Prod(shape), _ => 0.0))
  }

  /** The array a port refers to. */
  function Get(bufs: seq<Array>, ref: Option<nat>): (r: Option<Array>)
    ensures r.Some? <==> ref.Some? && ref.value < |bufs|
  {
    if ref.Some? && ref.value < |bufs| then Some(bufs[ref.value]) else None
  }

  /** The port refers to an array of the store that agrees with `d`. */
  predicate Holds(d: Descriptor, ref: Option<nat>, bufs: seq<Array>)
  {
    Get(bufs, ref).Some? && ConsistentWith(d, Get(bufs, ref).value)
  }

  /** `b1` keeps every array of `b0` with its dtype and shape (contents
      may change) and may add more. */
  predicate Stable(b0: seq<Array>, b1: seq<Array>)
  {
    |b0| <= |b1| && forall k :: 0 <= k < |b0| ==> b1[k].shape == b0[k].shape && b1[k].dtype == b0[k].dtype
  }

  lemma StableHolds(d: Descriptor, ref: Option<nat>, b0: seq<Array>, b1: seq<Array>)
    requires Stable(b0, b1) && Holds(d, ref, b0)
    ensures Holds(d, ref, b1)
  {
  }

  lemma StableTrans(b0: seq<Array>, b1: seq<Array>, b2: seq<Array>)
    requires Stable(b0, b1) && Stable(b1, b2)
    ensures Stable(b0, b2)
  {
  }

  /** `Input.set_own_data`: a closed node refuses; an input already holding
      data refuses; otherwise the input records the array, its dtype and
      shape, and the given axes (none by default). */
  function SetOwnData(s: InState, closed: bool, a: Array, id: nat, ownsBuffer: bool, edges: seq<int>, meshes: seq<int>): (r: Result<InState>)
    ensures closed ==> r == Err(ClosedGraphError)
    ensures !closed && s.ownData.Some? ==> r == Err(AllocationError)
    ensures r.Ok? <==> !closed && s.ownData.None?
    ensures r.Ok? ==> r.value.ownData == Some(id) && r.value.ownsBuffer == ownsBuffer && ConsistentWith(r.value.ownDd, a)
    ensures r.Ok? ==> r.value.ownDd.axesEdges == edges && r.value.ownDd.axesMeshes == meshes
    ensures r.Ok? ==> r.value.allocatable == s.allocatable
  {
    if closed then Err(ClosedGraphError)
    else if s.ownData.Some? then Err(AllocationError)
    else Ok(s.(ownData := Some(id), ownsBuffer := ownsBuffer,
               ownDd := Adopt(s.ownDd, a).(axesEdges := edges, axesMeshes := meshes)))
  }

  /** The `Input` constructor's data part: an array may not come with
      `allocatable`, `dtype` or `shape`; given an array, the input owns it. */
  function NewInput(allocatable: bool, data: Option<Array>, dtype: Option<DType>, shape: Option<seq<nat>>,
                    edges: Option<seq<int>>, meshes: Option<seq<int>>, closed: bool, bufs: seq<Array>): (r: Result<(InState, seq<Array>)>)
    ensures data.Some? && (allocatable || dtype.Some? || shape.Some?) ==> r == Err(InitializationError)
    ensures data.None? ==> r == Ok((InState(allocatable, None, false, New(dtype, shape, edges, meshes)), bufs))
    ensures r.Ok? && data.Some? ==>
      r.value.1 == bufs + [data.value] && r.value.0.ownData == Some(|bufs|) && r.value.0.ownsBuffer &&
      Holds(r.value.0.ownDd, r.value.0.ownData, r.value.1)
    ensures r.Err? ==> r.error == InitializationError || (r.error == ClosedGraphError && closed)
  {
    if data.Some? && (allocatable || dtype.Some? || shape.Some?) then Err(InitializationError)
    else
      var s := InState(allocatable, None, false, New(dtype, shape, edges, meshes));
      if data.None? then Ok((s, bufs))
      else
        var s1 := SetOwnData(s, closed, data.value, |bufs|, true, [], []);
        if s1.Err? then Err(s1.error) else Ok((s1.value, bufs + [data.value]))
  }

  /** `Input.allocate`.  `badKw` says that the call passes a keyword argument
      on to numpy `zeros`, which does not accept it. */
  function InAlloc(s: InState, bufs: seq<Array>, badKw: bool): (r: Result<(InState, seq<Array>, bool)>)
    ensures r.Err? <==> s.allocatable && !Holds(s.ownDd, s.ownData, bufs) &&
                         (s.ownDd.shape.None? || s.ownDd.dtype.None? || badKw)
    ensures r.Err? ==> r.error == AllocationError
    ensures r.Ok? ==> Stable(bufs, r.value.1)
    ensures r.Ok? && s.allocatable ==> Holds(r.value.0.ownDd, r.value.0.ownData, r.value.1)
    ensures r.Ok? && !r.value.2 ==> r.value.0 == s && r.value.1 == bufs
    ensures r.Ok? && r.value.2 ==> s.ownDd.dtype.Some? && s.ownDd.shape.Some? && r.value.0 == s.(ownData := Some(|bufs|)) && r.value.1 == bufs + [Zeros(s.ownDd.dtype.value, s.ownDd.shape.value)]
  {
    if !s.allocatable || Holds(s.ownDd, s.ownData, bufs) then Ok((s, bufs, false))
    else if s.ownDd.shape.None? || s.ownDd.dtype.None? || badKw then Err(AllocationError)
    else Ok((s.(ownData := Some(|bufs|)), bufs + [Zeros(s.ownDd.dtype.value, s.ownDd.shape.value)], true))
  }

  /** Allocating an input twice: the second call finds consistent data and
      changes nothing. */
  lemma InAllocAgain(s: InState, bufs: seq<Array>)
    requires InAlloc(s, bufs, false).Ok?
    ensures var t := InAlloc(s, bufs, false).value;
            InAlloc(t.0, t.1, false) == Ok((t.0, t.1, false))
  {
  }

  /** What `_set_data` leaves: the new output state, and whether the node's
      types were tainted first because the descriptor disagreed with the array. */
  datatype SetRes = SetRes(out: OutState, typeTaint: bool)

  /** `Output._set_data`.  A closed node refuses; an owned buffer forbids
      reallocation, as does the output's own flag or an explicit request; a
      forbidden reallocation with an allocating input is an error; otherwise
      the output takes the array and its dtype and shape.  `hasAin` says
      that the output has an allocating input. */
  function SetData(s: OutState, closed: bool, hasAin: bool, a: Array, id: nat, ownsBuffer: bool, forbid: Option<bool>): (r: Result<SetRes>)
    ensures closed ==> r == Err(ClosedGraphError)
    ensures r.Ok? <==> !closed && !(hasAin && (ownsBuffer || forbid == Some(true) || s.forbidRealloc))
    ensures r.Err? && !closed ==> r.error == AllocationError
    ensures r.Ok? ==> r.value.out.data == Some(id) && ConsistentWith(r.value.out.dd, a) &&
                      r.value.out.ownsBuffer == ownsBuffer && r.value.out.allocatable == s.allocatable
    ensures r.Ok? ==> r.value.out.forbidRealloc == (ownsBuffer || forbid == Some(true) || s.forbidRealloc)
    ensures r.Ok? ==> (r.value.typeTaint <==> !ConsistentWith(s.dd, a))
  {
    if closed then Err(ClosedGraphError)
    else
      var fr := (if ownsBuffer then true else if forbid.None? then ownsBuffer else forbid.value) || s.forbidRealloc;
      if fr && hasAin then Err(AllocationError)
      else Ok(SetRes(s.(data := Some(id), dd := Adopt(s.dd, a), ownsBuffer := ownsBuffer, forbidRealloc := fr),
                     !ConsistentWith(s.dd, a)))
  }

  /** What the `Output` constructor builds: the output, the store, whether
      the node's types were tainted on the way, and whether it raised. */
  datatype OutInit = OutInit(out: OutState, bufs: seq<Array>, typeTaint: bool, error: Option<Error>)

  /** The `Output` constructor's data part.  Without an array the output is
      allocatable unless told otherwise and owns no buffer; given an array it
      owns it unless told otherwise, is allocatable exactly when it does not
      own it, takes it through `_set_data`, and only then refuses an array
      given together with `allocatable`, `dtype` or `shape`. */
  function NewOutput(allocatable: Option<bool>, data: Option<Array>, ownsBuffer: Option<bool>, dtype: Option<DType>,
                     shape: Option<seq<nat>>, edges: Option<seq<int>>, meshes: Option<seq<int>>, forbid: bool,
                     closed: bool, bufs: seq<Array>): (r: OutInit)
    ensures data.None? ==>
      r.error.None? && !r.typeTaint && r.bufs == bufs && r.out == OutState(allocatable != Some(false), None, false, forbid, New(dtype, shape, edges, meshes))
    ensures data.Some? && r.error.None? ==>
      r.out.data == Some(|bufs|) && r.bufs == bufs + [data.value] && Holds(r.out.dd, r.out.data, r.bufs) &&
      r.out.allocatable == !r.out.ownsBuffer && r.out.ownsBuffer == (ownsBuffer != Some(false))
    ensures data.Some? && allocatable != Some(true) && dtype.None? && shape.None? && !closed ==>
      r.error.None? && r.typeTaint
    ensures data.Some? && (allocatable == Some(true) || dtype.Some? || shape.Some?) ==> r.error.Some?
  {
    var dd := New(dtype, shape, edges, meshes);
    if data.None? then OutInit(OutState(allocatable != Some(false), None, false, forbid, dd), bufs, false, None)
    else
      var ob := ownsBuffer != Some(false);
      var s := OutState(!ob, None, false, forbid, dd);
      var sr := SetData(s, closed, false, data.value, |bufs|, ob, None);
      if sr.Err? then OutInit(s, bufs, false, Some(sr.error))
      else
        var err := if allocatable == Some(true) || dtype.Some? || shape.Some? then Some(InitializationError) else None;
        OutInit(sr.value.out, bufs + [data.value], sr.value.typeTaint, err)
  }

  /** What `Output.allocate` leaves: the output, its allocating input, the
      store, and whether the data were reassigned. */
  datatype Alloc = Alloc(out: OutState, ain: Option<InState>, bufs: seq<Array>, reassigned: bool)

  /** The array holds one value per element of its shape. */
  predicate Sized(a: Array)
  {
    |a.flat| == Prod(a.shape)
  }

  /** numpy's broadcasting for assignment: data of shape `s` can be written
      into an array of shape `d` when, aligned from the last axis, each axis
      of `s` has length 1 or the length of `d`'s axis, and every axis of `s`
      beyond the axes of `d` has length 1. */
  predicate BroadcastsInto(s: seq<nat>, d: seq<nat>)
  {
    forall i :: 0 <= i < |s| ==> FromEnd(s, i) == 1 || (i < |d| && FromEnd(s, i) == FromEnd(d, i))
  }

  /** Every shape broadcasts into itself, and the scalar shape into every
      shape. */
  lemma BroadcastsIntoItself(d: seq<nat>)
    ensures BroadcastsInto(d, d) && BroadcastsInto([], d)
  {
  }

  /** Broadcasting is decided axis by axis from the last: the last axis of
      the data fits, and so do the axes before it. */
  lemma BroadcastsIntoInit(s: seq<nat>, d: seq<nat>)
    requires |s| > 0 && BroadcastsInto(s, d)
    ensures |d| == 0 ==> s[|s| - 1] == 1 && BroadcastsInto(s[..|s| - 1], d)
    ensures |d| > 0 ==> (s[|s| - 1] == 1 || s[|s| - 1] == d[|d| - 1]) && BroadcastsInto(s[..|s| - 1], d[..|d| - 1])
  {
    assert FromEnd(s, 0) == s[|s| - 1];
    var s' := s[..|s| - 1];
    forall i | 0 <= i < |s'|
      ensures FromEnd(s', i) == FromEnd(s, i + 1)
      ensures |d| > 0 && i < |d| - 1 ==> FromEnd(d[..|d| - 1], i) == FromEnd(d, i + 1)
    {
    }
  }

  /** The row-major position in data of shape `s` that broadcasting writes
      to position `p` of an array of shape `d`: along each axis, the
      destination's coordinate, or 0 where `s` has length 1. */
  function SourceIndex(p: nat, s: seq<nat>, d: seq<nat>): nat
    decreases |d|
  {
    if |s| == 0 || |d| == 0 || d[|d| - 1] == 0 then 0
    else
      var sl := s[|s| - 1];
      SourceIndex(p / d[|d| - 1], s[..|s| - 1], d[..|d| - 1]) * sl + (if sl == 1 then 0 else p % d[|d| - 1])
  }

  /** Data that fit only add axes of length 1 beyond the destination's. */
  lemma {:induction false} BroadcastsIntoScalar(s: seq<nat>)
    requires BroadcastsInto(s, [])
    ensures Prod(s) == 1
    decreases |s|
  {
    if |s| > 0 {
      BroadcastsIntoInit(s, []);
      BroadcastsIntoScalar(s[..|s| - 1]);
    }
  }

  /** The coordinates before the last axis index the shape without it. */
  lemma Quotient(p: nat, a: nat, b: nat)
    requires p < a * b
    ensures b > 0 && p / b < a
  {
  }

  /** Row-major offsets stay within the shape. */
  lemma Offset(x: nat, n: nat, k: nat, c: nat)
    requires x < n && c < k
    ensures x * k + c < n * k
  {
    assert x * k <= (n - 1) * k;
  }

  /** Broadcasting reads the data inside their shape. */
  lemma {:induction false} SourceIndexBound(p: nat, s: seq<nat>, d: seq<nat>)
    requires BroadcastsInto(s, d) && p < Prod(d)
    ensures SourceIndex(p, s, d) < Prod(s)
    decreases |d|
  {
    if |s| == 0 {
    } else if |d| == 0 {
      BroadcastsIntoScalar(s);
    } else {
      var s', d' := s[..|s| - 1], d[..|d| - 1];
      var dl, sl := d[|d| - 1], s[|s| - 1];
      BroadcastsIntoInit(s, d);
      Quotient(p, Prod(d'), dl);
      SourceIndexBound(p / dl, s', d');
      Offset(SourceIndex(p / dl, s', d'), Prod(s'), sl, if sl == 1 then 0 else p % dl);
    }
  }

  /** Data of the destination's own shape are copied position by position. */
  lemma {:induction false} SourceIndexSame(p: nat, d: seq<nat>)
    requires p < Prod(d)
    ensures SourceIndex(p, d, d) == p
    decreases |d|
  {
    if |d| > 0 {
      var dl := d[|d| - 1];
      Quotient(p, Prod(d[..|d| - 1]), dl);
      SourceIndexSame(p / dl, d[..|d| - 1]);
    }
  }

  /** The contents broadcasting gives an array of shape `d`: each position
      takes the value of the data at its `SourceIndex` (0.0 stands for a
      value the data lack, which `Sized` data never do, see `FillReads`). */
  function Fill(a: Array, d: seq<nat>): (r: seq<real>)
    ensures |r| == Prod(d)
  {
    seq(Prod(d), p requires 0 <= p => if SourceIndex(p, a.shape, d) < |a.flat| then a.flat[SourceIndex(p, a.shape, d)] else 0.0)
  }

  /** Broadcasting `Sized` data that fit takes every value from the data,
      at the position `SourceIndex` names. */
  lemma FillReads(a: Array, d: seq<nat>)
    requires Sized(a) && BroadcastsInto(a.shape, d)
    ensures forall p :: 0 <= p < Prod(d) ==> SourceIndex(p, a.shape, d) < |a.flat| && Fill(a, d)[p] == a.flat[SourceIndex(p, a.shape, d)]
  {
    forall p | 0 <= p < Prod(d)
      ensures SourceIndex(p, a.shape, d) < |a.flat|
    {
      SourceIndexBound(p, a.shape, d);
    }
  }

  /** Data of the destination's shape are copied unchanged. */
  lemma FillSame(a: Array)
    requires Sized(a)
    ensures Fill(a, a.shape) == a.flat
  {
    BroadcastsIntoItself(a.shape);
    forall p | 0 <= p < |a.flat|
      ensures Fill(a, a.shape)[p] == a.flat[p]
    {
      SourceIndexSame(p, a.shape);
    }
  }
  /** One value with no axes broadcasts into every element. */
  lemma FillScalar(t: DType, x: real, d: seq<nat>)
    ensures Fill(Array(t, [], [x]), d) == seq(Prod(d), _ => x)
  {
    forall p | 0 <= p < Prod(d)
      ensures Fill(Array(t, [], [x]), d)[p] == x
    {
      assert SourceIndex(p, [], d) == 0;
    }
  }


  /** numpy `idata[:] = data`: a 0-d destination cannot be sliced
      (IndexError); data that do not fit the destination's shape raise
      ValueError; otherwise the data are broadcast into the destination
      (values converted to its dtype).  Nothing to copy without data. */
  function CopyInto(bufs: seq<Array>, dst: nat, src: Option<nat>): (r: Result<seq<Array>>)
    requires dst < |bufs|
    ensures Get(bufs, src).None? ==> r == Ok(bufs)
    ensures Get(bufs, src).Some? ==> (r.Ok? <==> |bufs[dst].shape| > 0 && BroadcastsInto(Get(bufs, src).value.shape, bufs[dst].shape))
    ensures Get(bufs, src).Some? && |bufs[dst].shape| == 0 ==> r == Err(IndexError)
    ensures r.Err? && |bufs[dst].shape| > 0 ==> r.error == ValueError
    ensures r.Ok? && Get(bufs, src).Some? ==> r.value == bufs[dst := bufs[dst].(flat := Fill(Get(bufs, src).value, bufs[dst].shape))]
  {
    var a := Get(bufs, src);
    if a.None? then Ok(bufs)
    else if |bufs[dst].shape| == 0 then Err(IndexError)
    else if !BroadcastsInto(a.value.shape, bufs[dst].shape) then Err(ValueError)
    else Ok(bufs[dst := bufs[dst].(flat := Fill(a.value, bufs[dst].shape))])
  }

  /** Old data of the destination's shape are copied value for value, and
      every copy keeps the store's shapes and dtypes. */
  lemma CopySameShape(bufs: seq<Array>, dst: nat, src: nat)
    requires dst < |bufs| && src < |bufs| && |bufs[dst].shape| > 0
    requires bufs[src].shape == bufs[dst].shape && Sized(bufs[src])
    ensures CopyInto(bufs, dst, Some(src)) == Ok(bufs[dst := bufs[dst].(flat := bufs[src].flat)])
  {
    BroadcastsIntoItself(bufs[dst].shape);
    FillSame(bufs[src]);
  }

  lemma CopyKeepsShapes(bufs: seq<Array>, dst: nat, src: Option<nat>)
    requires dst < |bufs| && CopyInto(bufs, dst, src).Ok?
    ensures Stable(bufs, CopyInto(bufs, dst, src).value) && |CopyInto(bufs, dst, src).value| == |bufs|
  {
  }

  /** One value fills a buffer of three; a 0-d buffer cannot be sliced; two
      values do not broadcast into three. */
  lemma CopyExamples(t: DType)
    ensures CopyInto([Array(t, [3], [0.0, 0.0, 0.0]), Array(t, [1], [2.5])], 0, Some(1)) ==
              Ok([Array(t, [3], [2.5, 2.5, 2.5]), Array(t, [1], [2.5])])
    ensures CopyInto([Array(t, [], [0.0]), Array(t, [], [2.5])], 0, Some(1)) == Err(IndexError)
    ensures CopyInto([Array(t, [3], [0.0, 0.0, 0.0]), Array(t, [2], [1.0, 2.0])], 0, Some(1)) == Err(ValueError)
  {
    var one := Array(t, [1], [2.5]);
    assert [3][..0] == [] && [1][..0] == [];
    assert Prod([3]) == 3 && Prod([1]) == 1;
    assert BroadcastsInto([1], [3]);
    assert FromEnd([2], 0) == 2 && FromEnd([3], 0) == 3;
    assert !BroadcastsInto([2], [3]);
    var f := Fill(one, [3]);
    forall p | 0 <= p < 3
      ensures f[p] == 2.5
    {
      assert SourceIndex(p, [1], [3]) == 0;
    }
    assert f == [2.5, 2.5, 2.5];
    var bufs := [Array(t, [3], [0.0, 0.0, 0.0]), one];
    assert Get(bufs, Some(1)) == Some(one);
    assert bufs[0 := bufs[0].(flat := f)] == [Array(t, [3], [2.5, 2.5, 2.5]), one];
  }

  /** The fresh-buffer path of `Output.allocate`: consistent data are kept;
      otherwise a zero array of the descriptor's shape and dtype is installed
      as an owned buffer, any failure becoming AllocationError. */
  function AllocZeros(s: OutState, closed: bool, ain: Option<InState>, bufs: seq<Array>): (r: Result<Alloc>)
    ensures r.Ok? ==> Holds(r.value.out.dd, r.value.out.data, r.value.bufs) && r.value.ain == ain
    ensures r.Ok? && !r.value.reassigned ==> r.value.out == s && r.value.bufs == bufs
    ensures r.Ok? && r.value.reassigned ==>
      s.dd.dtype.Some? && s.dd.shape.Some? &&
      r.value.out.data == Some(|bufs|) && r.value.out.ownsBuffer && r.value.out.forbidRealloc &&
      r.value.bufs == bufs + [Zeros(s.dd.dtype.value, s.dd.shape.value)] && r.value.out.dd == s.dd
    ensures r.Err? ==> r.error == AllocationError
    ensures r.Err? <==> !Holds(s.dd, s.data, bufs) && (s.dd.shape.None? || s.dd.dtype.None? || closed || ain.Some?)
  {
    if Holds(s.dd, s.data, bufs) then Ok(Alloc(s, ain, bufs, false))
    else if s.dd.shape.None? || s.dd.dtype.None? then Err(AllocationError)
    else
      var z := Zeros(s.dd.dtype.value, s.dd.shape.value);
      var sr := SetData(s, closed, ain.Some?, z, |bufs|, true, None);
      if sr.Err? then Err(AllocationError)
      else Ok(Alloc(sr.value.out, ain, bufs + [z], true))
  }

  /** The allocating-input path of `Output.allocate` once the input holds
      data `id`: the array must agree with the output's descriptor; the
      output's previous data are copied into it and the output takes it as a
      buffer it does not own.  The path always reports a reassignment. */
  function AdoptInput(s: OutState, closed: bool, i1: InState, id: nat, bufs: seq<Array>): (r: Result<Alloc>)
    ensures r.Ok? ==> r.value.reassigned && r.value.out.data == Some(id) && Holds(r.value.out.dd, Some(id), r.value.bufs)
    ensures r.Ok? ==> r.value.ain == Some(i1) && |r.value.bufs| == |bufs|
    ensures !Holds(s.dd, Some(id), bufs) ==> r == Err(AllocationError)
    ensures s.data == Some(id) && Holds(s.dd, Some(id), bufs) ==> r == Ok(Alloc(s, Some(i1), bufs, true))
  {
    if !Holds(s.dd, Some(id), bufs) then Err(AllocationError)
    else if s.data == Some(id) then Ok(Alloc(s, Some(i1), bufs, true))
    else
      var b1 := CopyInto(bufs, id, s.data);
      if b1.Err? then Err(b1.error)
      else
        var sr := SetData(s, closed, true, b1.value[id], id, false, None);
        if sr.Err? then Err(sr.error)
        else Ok(Alloc(sr.value.out, Some(i1), b1.value, true))
  }

  /** `Output.allocate`: a non-allocatable output keeps what it has; an
      output with an allocating input first allocates that input and, when
      the input then holds data, adopts them; otherwise the output allocates
      a fresh buffer.  `badKw` is passed on to the input's allocation. */
  function OutAllocWith(s: OutState, closed: bool, ain: Option<InState>, bufs: seq<Array>, badKw: bool): (r: Result<Alloc>)
    ensures r.Ok? && s.allocatable ==> Holds(r.value.out.dd, r.value.out.data, r.value.bufs)
    ensures r.Ok? ==> Stable(bufs, r.value.bufs)
    ensures !s.allocatable ==> r == Ok(Alloc(s, ain, bufs, false))
    ensures r.Err? ==> r.error == AllocationError || r.error == ValueError || r.error == IndexError || r.error == ClosedGraphError
  {
    if !s.allocatable then Ok(Alloc(s, ain, bufs, false))
    else if ain.Some? then
      var ir := InAlloc(ain.value, bufs, badKw);
      if ir.Err? then Err(ir.error)
      else
        var i1 := ir.value.0;
        var b1 := ir.value.1;
        if i1.ownData.Some? then AdoptInput(s, closed, i1, i1.ownData.value, b1)
        else AllocZeros(s, closed, Some(i1), b1)
    else AllocZeros(s, closed, ain, bufs)
  }

  /** `Output.allocate` as written: it asks the input to allocate with the
      keyword `allocate_parents`, which reaches numpy `zeros`. */
  function OutAllocAsWritten(s: OutState, closed: bool, ain: Option<InState>, bufs: seq<Array>): (r: Result<Alloc>)
    ensures r.Ok? ==> r == OutAlloc(s, closed, ain, bufs)
    ensures r != OutAlloc(s, closed, ain, bufs) ==> r == Err(AllocationError) && s.allocatable && ain.Some?
  {
    OutAllocWith(s, closed, ain, bufs, true)
  }

  /** `Output.allocate` as intended: the input allocates its own buffer. */
  function OutAlloc(s: OutState, closed: bool, ain: Option<InState>, bufs: seq<Array>): (r: Result<Alloc>)
    ensures r.Ok? && s.allocatable ==> Holds(r.value.out.dd, r.value.out.data, r.value.bufs)
    ensures r.Ok? ==> Stable(bufs, r.value.bufs)
    ensures !s.allocatable ==> r == Ok(Alloc(s, ain, bufs, false))
  {
    OutAllocWith(s, closed, ain, bufs, false)
  }

  /** The keyword passed on by `Output.allocate` makes every allocation of
      an allocating input that still needs a buffer fail, where the
      intended call succeeds. */
  lemma AllocatingInputFails(s: OutState, i: InState, bufs: seq<Array>)
    requires s.allocatable
    requires i.allocatable && i.ownData.None? && i.ownDd.shape.Some? && i.ownDd.dtype.Some?
    ensures OutAllocAsWritten(s, false, Some(i), bufs) == Err(AllocationError)
    ensures InAlloc(i, bufs, false).Ok?
  {
  }

  /** A concrete input showing it: an empty output with an allocating 1-d
      input of length 3. */
  lemma AllocatingInputExample()
    ensures var d := New(Some(0), Some([3]), None, None);
            OutAllocAsWritten(OutState(true, None, false, false, d), false, Some(InState(true, None, false, d)), []) == Err(AllocationError) &&
            OutAlloc(OutState(true, None, false, false, d), false, Some(InState(true, None, false, d)), []).Ok?
  {
    var d := New(Some(0), Some([3]), None, None);
    AllocatingInputFails(OutState(true, None, false, false, d), InState(true, None, false, d), []);
  }

  /** Allocating an output twice: the second call changes nothing (an
      adopted input buffer is reported as reassigned again, but the state is
      the same). */
  lemma OutAllocAgain(s: OutState, closed: bool, ain: Option<InState>, bufs: seq<Array>)
    requires OutAlloc(s, closed, ain, bufs).Ok?
    ensures var a := OutAlloc(s, closed, ain, bufs).value;
            OutAlloc(a.out, closed, a.ain, a.bufs).Ok? &&
            OutAlloc(a.out, closed, a.ain, a.bufs).value.out == a.out &&
            OutAlloc(a.out, closed, a.ain, a.bufs).value.ain == a.ain &&
            OutAlloc(a.out, closed, a.ain, a.bufs).value.bufs == a.bufs
  {
    var a := OutAlloc(s, closed, ain, bufs).value;
    if s.allocatable && ain.Some? {
      var ir := InAlloc(ain.value, bufs, false).value;
      if ir.0.ownData.Some? {
        var id := ir.0.ownData.value;
        assert a.out.data == Some(id) && a.ain == Some(ir.0) && Holds(a.out.dd, Some(id), a.bufs);
        assert ir.0.allocatable ==> Holds(ir.0.ownDd, ir.0.ownData, ir.1);
        AdoptKeepsInput(ir.0, ir.1, a.bufs, id);
        assert InAlloc(ir.0, a.bufs, false) == Ok((ir.0, a.bufs, false));
      }
    }
  }

  /** An input holding consistent data still does after the output's
      adoption, which only rewrites the contents of that array. */
  lemma AdoptKeepsInput(i: InState, b0: seq<Array>, b1: seq<Array>, id: nat)
    requires i.ownData == Some(id) && id < |b0| && |b1| == |b0| && id < |b1|
    requires b1[id].shape == b0[id].shape && b1[id].dtype == b0[id].dtype
    requires i.allocatable ==> Holds(i.ownDd, i.ownData, b0)
    ensures InAlloc(i, b1, false) == Ok((i, b1, false))
  {
  }
}
