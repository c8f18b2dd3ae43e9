/** The integrator node (dagflow/lib/integration/integrator_core.py): its
    summation kernels, which add up the weighted data bin by bin, with the
    bins given by integer `orders` (the number of points in each bin); the
    orders check and the choice of kernel in its type function; and the
    guard of its `taint`.  Values are integers.  The orders check admits
    any integers that add up to the length, negative ones included, so the
    kernels take the bounds of each bin as numba takes slice bounds. */
module Integrator {
  import opened Base
  import opened DataDescriptor
  import InputChecks
  import AxesChecks

  // ---------------------------------------------------------------------
  // Segments

  /** Where bin `i` begins: the sum of the orders before it (the running
      `iprev` of the kernels). */
  function Start(orders: seq<int>, i: nat): int
    requires i <= |orders|
  {
    if i == 0 then 0 else Start(orders, i - 1) + orders[i - 1]
  }

  /** Non-negative orders lay the bins end to end, so their starts never
      decrease (and, from `Start(orders, 0) == 0`, are never negative). */
  lemma {:induction false} StartMonotone(orders: seq<int>, i: nat, j: nat)
    requires i <= j <= |orders|
    requires forall k :: i <= k < j ==> orders[k] >= 0
    ensures Start(orders, i) <= Start(orders, j)
    decreases j - i
  {
    if i < j {
      StartMonotone(orders, i, j - 1);
    }
  }

  /** A bin starts where it starts in any longer list of orders. */
  lemma {:induction false} StartPrefix(orders: seq<int>, k: nat, i: nat)
    requires i <= k <= |orders|
    ensures Start(orders[..k], i) == Start(orders, i)
  {
    if i > 0 {
      StartPrefix(orders, k, i - 1);
    }
  }

  /** The end of the last bin is `sum(orders)`, the number the type function
      compares with the length of the data. */
  lemma {:induction false} StartIsSum(orders: seq<int>, i: nat)
    requires i <= |orders|
    ensures Start(orders, i) == Sum(orders[..i])
  {
    if i > 0 {
      StartIsSum(orders, i - 1);
      assert orders[..i][..i - 1] == orders[..i - 1];
    }
  }

  /** A sum splits at any point. */
  lemma {:induction false} SumSplit(s: seq<int>, k: nat)
    requires k <= |s|
    ensures Sum(s) == Sum(s[..k]) + Sum(s[k..])
    decreases |s|
  {
    if k < |s| {
      var init := s[..|s| - 1];
      SumSplit(init, k);
      assert init[..k] == s[..k];
      assert s[k..][..|s[k..]| - 1] == init[k..];
    } else {
      assert s[..k] == s;
    }
  }

  /** The points `[a:b]` selects on an axis of `len` points, as a half-open
      range `[lo, hi)`: both bounds are read as Python reads slice bounds
      (a negative one counts from the end, then both are clamped to the
      axis), and the range is empty when the stop does not pass the start. */
  function Span(len: nat, a: int, b: int): (r: (nat, nat))
    ensures r.0 <= r.1 <= len
    ensures 0 <= a <= b <= len ==> r == (a, b)
    ensures 0 <= b <= a || b <= a < 0 ==> r.0 == r.1
  {
    var lo := SliceBound(len, Some(a), 0);
    var hi := SliceBound(len, Some(b), len);
    (lo, if hi < lo then lo else hi)
  }

  // ---------------------------------------------------------------------
  // One dimension

  /** Bin `i` of the one-dimensional integral: `data[Start(i):Start(i + 1)]`
      added up, which is the plain run of points between the two when both
      lie on the data. */
  function Bin(data: seq<int>, orders: seq<int>, i: nat): (r: int)
    requires i < |orders|
    ensures orders[i] == 0 ==> r == 0
    ensures 0 <= Start(orders, i) <= Start(orders, i + 1) <= |data| ==>
              r == Sum(data[Start(orders, i)..Start(orders, i + 1)])
  {
    var x := Span(|data|, Start(orders, i), Start(orders, i + 1));
    Sum(data[x.0..x.1])
  }

  /** All bins, in order. */
  function Bins(data: seq<int>, orders: seq<int>): (r: seq<int>)
    ensures |r| == |orders|
    ensures forall i :: 0 <= i < |orders| ==> r[i] == Bin(data, orders, i)
  {
    seq(|orders|, i requires 0 <= i < |orders| => Bin(data, orders, i))
  }

  /** How many leading points non-negative orders cover: `sum(orders)`,
      cut at the length of the data. */
  function Covered(data: seq<int>, orders: seq<int>): (r: nat)
    requires forall k :: 0 <= k < |orders| ==> orders[k] >= 0
    ensures r <= |data|
    ensures Start(orders, |orders|) <= |data| ==> r == Start(orders, |orders|)
  {
    StartMonotone(orders, 0, |orders|);
    var end := Start(orders, |orders|);
    if end < |data| then end else |data|
  }

  /** Non-negative orders partition the points they cover: the integral
      keeps their total. */
  lemma {:induction false} BinsPartition(data: seq<int>, orders: seq<int>)
    requires forall k :: 0 <= k < |orders| ==> orders[k] >= 0
    ensures Sum(Bins(data, orders)) == Sum(data[..Covered(data, orders)])
    decreases |orders|
  {
    var n := |orders|;
    if n > 0 {
      var init := orders[..n - 1];
      var b := Bins(data, orders);
      BinsPartition(data, init);
      BinsPrefix(data, orders);
      LastBin(data, orders);
      PrefixSplit(data, Covered(data, init), Covered(data, orders));
      assert Sum(b) == Sum(b[..n - 1]) + b[n - 1];
    }
  }

  /** The sum of the first `hi` points splits at `lo`. */
  lemma PrefixSplit(data: seq<int>, lo: nat, hi: nat)
    requires lo <= hi <= |data|
    ensures Sum(data[..hi]) == Sum(data[..lo]) + Sum(data[lo..hi])
  {
    var whole := data[..hi];
    SumSplit(whole, lo);
    assert whole[..lo] == data[..lo];
    assert whole[lo..] == data[lo..hi];
  }

  /** Dropping the last order leaves the other bins as they were. */
  lemma BinsPrefix(data: seq<int>, orders: seq<int>)
    requires |orders| > 0
    ensures Bins(data, orders)[..|orders| - 1] == Bins(data, orders[..|orders| - 1])
  {
    var n := |orders|;
    forall i | 0 <= i < n - 1
      ensures Bins(data, orders)[i] == Bins(data, orders[..n - 1])[i]
    {
      StartPrefix(orders, n - 1, i);
      StartPrefix(orders, n - 1, i + 1);
    }
  }

  /** With non-negative orders the last bin runs from the points the other
      bins cover to the points they all cover. */
  lemma LastBin(data: seq<int>, orders: seq<int>)
    requires |orders| > 0
    requires forall k :: 0 <= k < |orders| ==> orders[k] >= 0
    ensures Covered(data, orders[..|orders| - 1]) <= Covered(data, orders)
    ensures Bin(data, orders, |orders| - 1) == Sum(data[Covered(data, orders[..|orders| - 1])..Covered(data, orders)])
  {
    var n := |orders|;
    StartPrefix(orders, n - 1, n - 1);
    StartMonotone(orders, 0, n - 1);
  }

  /** Orders that pass the type function's check and are non-negative
      cover every point once: the integral keeps the total of the data. */
  lemma CheckedBinsKeepTotal(data: seq<int>, o: Orders, orders: seq<int>, table: seq<Descriptor>, isInteger: Option<DType> -> bool)
    requires OrdersOk(o, |data|, table, isInteger) && o.data == Some(orders)
    requires forall k :: 0 <= k < |orders| ==> orders[k] >= 0
    ensures Sum(Bins(data, orders)) == Sum(data)
  {
    CheckedOrdersFit(o, orders, |data|, table, isInteger);
    BinsPartition(data, orders);
    assert data[..|data|] == data;
  }

  /** A negative order sends the next bin back over points already counted,
      and a bin whose stop does not pass its start is empty: over three
      points the check accepts [2, -1, 2], which counts the middle point
      twice, and [4, -1], which puts every point in the first bin. */
  lemma NegativeOrders()
    ensures Bins([1, 1, 1], [2, -1, 2]) == [2, 0, 2]
    ensures Sum(Bins([1, 1, 1], [2, -1, 2])) != Sum([1, 1, 1])
    ensures Bins([1, 2, 3], [4, -1]) == [6, 0]
  {
    var d := [1, 1, 1];
    assert [1, 1][..1] == [1] && [1, 2][..1] == [1] && [1, 2, 3][..2] == [1, 2];
    assert Sum([1]) == 1 && Sum([1, 1]) == 2 && Sum([1, 2]) == 3 && Sum([1, 2, 3]) == 6;
    assert d[0..2] == [1, 1] && d[1..3] == [1, 1];
    assert Bin(d, [2, -1, 2], 0) == 2;
    assert Bin(d, [2, -1, 2], 2) == 2;
    assert Bin(d, [2, -1, 2], 1) == 0;
    var e := [1, 2, 3];
    assert e[0..3] == e;
    assert Bin(e, [4, -1], 0) == 6;
    assert Bin(e, [4, -1], 1) == 0;
  }

  /** `_integrate1d`: bin by bin, each bin starting where the previous one
      ended. */
  method Integrate1d(result: array<int>, data: array<int>, orders: array<int>)
    requires result != data && result != orders
    requires result.Length >= orders.Length
    modifies result
    ensures result[..orders.Length] == Bins(data[..], orders[..])
    ensures result[orders.Length..] == old(result[orders.Length..])
  {
    var iprev := 0;
    var i := 0;
    while i < orders.Length
      invariant 0 <= i <= orders.Length
      invariant iprev == Start(orders[..], i)
      invariant forall k :: 0 <= k < i ==> result[k] == Bin(data[..], orders[..], k)
      invariant result[orders.Length..] == old(result[orders.Length..])
    {
      var inext := iprev + orders[i];
      var x := Span(data.Length, iprev, inext);
      result[i] := Sum(data[x.0..x.1]);
      iprev := inext;
      i := i + 1;
    }
  }

  // ---------------------------------------------------------------------
  // Two dimensions

  /** Rows and columns of `m`, or of its transpose `m.T` when `t` is set. */
  function Rows(m: array2<int>, t: bool): nat
  {
    if t then m.Length1 else m.Length0
  }

  function Cols(m: array2<int>, t: bool): nat
  {
    if t then m.Length0 else m.Length1
  }

  /** Element `[i, j]` of `m` or of `m.T`. */
  function At(m: array2<int>, t: bool, i: nat, j: nat): int
    requires i < Rows(m, t) && j < Cols(m, t)
    reads m
  {
    if t then m[j, i] else m[i, j]
  }
  /** `m[i, j0:j1].sum()` (or of `m.T`). */
  function RowSum(m: array2<int>, t: bool, i: nat, j0: nat, j1: nat): (r: int)
    requires i < Rows(m, t) && j0 <= j1 <= Cols(m, t)
    reads m
    ensures j1 == j0 + 1 ==> r == At(m, t, i, j0)
    decreases j1 - j0
  {
    if j0 == j1 then 0 else RowSum(m, t, i, j0, j1 - 1) + At(m, t, i, j1 - 1)
  }

  /** `m[i0:i1, j0:j1].sum()` (or of `m.T`). */
  function BlockSum(m: array2<int>, t: bool, i0: nat, i1: nat, j0: nat, j1: nat): (r: int)
    requires i0 <= i1 <= Rows(m, t) && j0 <= j1 <= Cols(m, t)
    reads m
    ensures i1 == i0 + 1 ==> r == RowSum(m, t, i0, j0, j1)
    decreases i1 - i0
  {
    if i0 == i1 then 0 else BlockSum(m, t, i0, i1 - 1, j0, j1) + RowSum(m, t, i1 - 1, j0, j1)
  }

  /** Non-negative samples give a non-negative block sum. */
  lemma {:induction false} BlockSumNonNegative(m: array2<int>, t: bool, i0: nat, i1: nat, j0: nat, j1: nat)
    requires i0 <= i1 <= Rows(m, t) && j0 <= j1 <= Cols(m, t)
    requires forall i, j :: i0 <= i < i1 && j0 <= j < j1 ==> At(m, t, i, j) >= 0
    ensures BlockSum(m, t, i0, i1, j0, j1) >= 0
    decreases i1 - i0
  {
    if i0 < i1 {
      BlockSumNonNegative(m, t, i0, i1 - 1, j0, j1);
      RowSumNonNegative(m, t, i1 - 1, j0, j1);
    }
  }

  lemma {:induction false} RowSumNonNegative(m: array2<int>, t: bool, i: nat, j0: nat, j1: nat)
    requires i < Rows(m, t) && j0 <= j1 <= Cols(m, t)
    requires forall j :: j0 <= j < j1 ==> At(m, t, i, j) >= 0
    ensures RowSum(m, t, i, j0, j1) >= 0
    decreases j1 - j0
  {
    if j0 < j1 {
      RowSumNonNegative(m, t, i, j0, j1 - 1);
    }
  }

  /** A block with no columns adds up to nothing. */
  lemma {:induction false} NoColumns(m: array2<int>, t: bool, i0: nat, i1: nat, j: nat)
    requires i0 <= i1 <= Rows(m, t) && j <= Cols(m, t)
    ensures BlockSum(m, t, i0, i1, j, j) == 0
    decreases i1 - i0
  {
    if i0 < i1 {
      NoColumns(m, t, i0, i1 - 1, j);
    }
  }

  /** The last column of a block is a row of the transposed view. */
  lemma {:induction false} LastColumn(m: array2<int>, t: bool, i0: nat, i1: nat, j0: nat, j1: nat)
    requires i0 <= i1 <= Rows(m, t) && j0 < j1 <= Cols(m, t)
    ensures BlockSum(m, t, i0, i1, j0, j1) == BlockSum(m, t, i0, i1, j0, j1 - 1) + RowSum(m, !t, j1 - 1, i0, i1)
    decreases i1 - i0
  {
    if i0 < i1 {
      LastColumn(m, t, i0, i1 - 1, j0, j1);
    }
  }

  /** Summing a block of `m.T` is summing the transposed block of `m`. */
  lemma {:induction false} Transposed(m: array2<int>, t: bool, i0: nat, i1: nat, j0: nat, j1: nat)
    requires i0 <= i1 <= Rows(m, t) && j0 <= j1 <= Cols(m, t)
    ensures BlockSum(m, t, i0, i1, j0, j1) == BlockSum(m, !t, j0, j1, i0, i1)
    decreases i1 - i0
  {
    if i0 == i1 {
      NoColumns(m, !t, j0, j1, i0);
    } else {
      Transposed(m, t, i0, i1 - 1, j0, j1);
      LastColumn(m, !t, j0, j1, i0, i1);
    }
  }


  /** Bin `(i, j)` of the two-dimensional integral: the block of x-bin `i`
      and y-bin `j`, each axis sliced as numba slices it. */
  function Block(data: array2<int>, ox: seq<int>, oy: seq<int>, i: nat, j: nat): (r: int)
    requires i < |ox| && j < |oy|
    reads data
    ensures ox[i] == 0 || oy[j] == 0 ==> r == 0
  {
    var x := Span(data.Length0, Start(ox, i), Start(ox, i + 1));
    var y := Span(data.Length1, Start(oy, j), Start(oy, j + 1));
    NoColumns(data, false, x.0, x.1, y.0);
    BlockSum(data, false, x.0, x.1, y.0, y.1)
  }

  /** `_integrate2d`: for each x-bin, every y-bin in turn. */
  method Integrate2d(result: array2<int>, data: array2<int>, ox: array<int>, oy: array<int>)
    requires result != data
    requires result.Length0 >= ox.Length && result.Length1 >= oy.Length
    modifies result
    ensures forall i, j :: 0 <= i < ox.Length && 0 <= j < oy.Length ==>
              result[i, j] == Block(data, ox[..], oy[..], i, j)
    ensures forall i, j :: 0 <= i < result.Length0 && 0 <= j < result.Length1 && (i >= ox.Length || j >= oy.Length) ==>
              result[i, j] == old(result[i, j])
  {
    var iprev := 0;
    var i := 0;
    while i < ox.Length
      invariant 0 <= i <= ox.Length
      invariant iprev == Start(ox[..], i)
      invariant forall p, q :: 0 <= p < i && 0 <= q < oy.Length ==> result[p, q] == Block(data, ox[..], oy[..], p, q)
      invariant forall p, q :: 0 <= p < result.Length0 && 0 <= q < result.Length1 && (p >= ox.Length || q >= oy.Length) ==>
                  result[p, q] == old(result[p, q])
    {
      var inext := iprev + ox[i];
      var x := Span(data.Length0, iprev, inext);
      var jprev := 0;
      var j := 0;
      while j < oy.Length
        invariant 0 <= j <= oy.Length
        invariant jprev == Start(oy[..], j)
        invariant forall p, q :: 0 <= p < i && 0 <= q < oy.Length ==> result[p, q] == Block(data, ox[..], oy[..], p, q)
        invariant forall q :: 0 <= q < j ==> result[i, q] == Block(data, ox[..], oy[..], i, q)
        invariant forall p, q :: 0 <= p < result.Length0 && 0 <= q < result.Length1 && (p >= ox.Length || q >= oy.Length) ==>
                    result[p, q] == old(result[p, q])
      {
        var jnext := jprev + oy[j];
        var y := Span(data.Length1, jprev, jnext);
        result[i, j] := BlockSum(data, false, x.0, x.1, y.0, y.1);
        jprev := jnext;
        j := j + 1;
      }
      iprev := inext;
      i := i + 1;
    }
  }

  /** Bin `i` when the other axis is dropped: every column of the rows of bin
      `i` (of `data` or of `data.T`). */
  function Strip(data: array2<int>, t: bool, orders: seq<int>, i: nat): (r: int)
    requires i < |orders|
    reads data
    ensures orders[i] == 0 ==> r == 0
  {
    var x := Span(Rows(data, t), Start(orders, i), Start(orders, i + 1));
    BlockSum(data, t, x.0, x.1, 0, Cols(data, t))
  }

  /** `_integrate2to1d`, given `data` itself (`t` unset, the y axis is
      dropped) or its transpose (`t` set, the x axis is dropped). */
  method Integrate2to1d(result: array<int>, data: array2<int>, t: bool, orders: array<int>)
    requires result != orders
    requires result.Length >= orders.Length
    modifies result
    ensures forall i :: 0 <= i < orders.Length ==> result[i] == Strip(data, t, orders[..], i)
    ensures result[orders.Length..] == old(result[orders.Length..])
  {
    var iprev := 0;
    var i := 0;
    while i < orders.Length
      invariant 0 <= i <= orders.Length
      invariant iprev == Start(orders[..], i)
      invariant forall k :: 0 <= k < i ==> result[k] == Strip(data, t, orders[..], k)
      invariant result[orders.Length..] == old(result[orders.Length..])
    {
      var inext := iprev + orders[i];
      var x := Span(Rows(data, t), iprev, inext);
      result[i] := BlockSum(data, t, x.0, x.1, 0, Cols(data, t));
      iprev := inext;
      i := i + 1;
    }
  }

  /** Dropping an axis that holds a single bin loses nothing: the strip
      kernel gives the one row (x dropped, on `data.T`) or the one column
      (y dropped, on `data`) of the two-dimensional integral. */
  lemma DroppedAxisIsSingleBin(data: array2<int>, t: bool, orders: seq<int>, i: nat)
    requires i < |orders|
    ensures !t ==> Strip(data, t, orders, i) == Block(data, orders, [data.Length1], i, 0)
    ensures t ==> Strip(data, t, orders, i) == Block(data, [data.Length0], orders, 0, i)
  {
    var x := Span(Rows(data, t), Start(orders, i), Start(orders, i + 1));
    if t {
      Transposed(data, t, x.0, x.1, 0, data.Length0);
    }
  }

  // ---------------------------------------------------------------------
  // The type function

  /** An orders input as the type function sees it: the descriptor of its
      parent output and that output's data, None while the graph above it is
      still open (reading it then raises UnclosedGraphError). */
  datatype Orders = Orders(dd: Descriptor, data: Option<seq<int>>)

  /** What `__check_orders_input` accepts: a 1-d integer input, with data,
      whose orders add up to `length`, and whose edges are 1-d outputs. */
  predicate OrdersOk(o: Orders, length: nat, table: seq<Descriptor>, isInteger: Option<DType> -> bool)
  {
    Dim(o.dd) == Ok(1) && isInteger(o.dd.dtype) && o.data.Some? && Sum(o.data.value) == length &&
    AxesChecks.EdgesDimension([o.dd], table, 1).Pass?
  }

  /** `__check_orders_input`: the checks in order; on success, the length of
      the orders' first edges output and that output. */
  function CheckOrders(o: Orders, length: nat, table: seq<Descriptor>, isInteger: Option<DType> -> bool): (r: Result<(nat, int)>)
    ensures r.Ok? <==> OrdersOk(o, length, table, isInteger)
    ensures r.Ok? ==> r.value.1 == o.dd.axesEdges[0] && 0 <= r.value.1 < |table|
    ensures r.Ok? ==> table[r.value.1].shape == Some([r.value.0])
    ensures Dim(o.dd) == Ok(1) && isInteger(o.dd.dtype) && o.data.None? ==> r == Err(CalculationError)
    ensures Dim(o.dd) == Ok(1) && isInteger(o.dd.dtype) && o.data.Some? && Sum(o.data.value) != length ==>
              r == Err(TypeFunctionError)
  {
    var dims := InputChecks.Dimensions([o.dd], 1);
    if dims.Fail? then Err(dims.error)
    else if !isInteger(o.dd.dtype) then Err(TypeFunctionError)
    else if o.data.None? then Err(CalculationError)
    else if Sum(o.data.value) != length then Err(TypeFunctionError)
    else
      var edges := AxesChecks.EdgesDimension([o.dd], table, 1);
      if edges.Fail? then Err(edges.error)
      else
        assert |[o.dd][0].axesEdges| > 0 && AxesChecks.EdgeOfDim(table, [o.dd][0].axesEdges[0], 1);
        var h := o.dd.axesEdges[0];
        assert table[h].shape.value == [table[h].shape.value[0]];
        Ok((table[h].shape.value[0], h))
  }

  /** The four functions the node may run: `_fcn_1d`, `_fcn_2d`, and the
      strip kernels with the x axis (`_fcn_21d_x`) or y axis (`_fcn_21d_y`)
      dropped. */
  datatype Kernel = Sum1d | Sum2d | DropX | DropY

  /** What the type function gives every output, and the function it picks.
      A bin count is the edges length minus one, so it may be -1. */
  datatype Plan = Plan(dtype: Option<DType>, shape: seq<int>, edges: seq<int>, kernel: Kernel)

  /** The checks on the integrand inputs and the weights, before the orders. */
  function CheckIntegrands(ins: seq<Descriptor>, weights: Descriptor, dim: nat, isFloating: Option<DType> -> bool): (r: Outcome)
    requires |ins| > 0
    ensures r.Pass? <==>
              ins[0].shape.Some? && |ins[0].shape.value| == dim &&
              (forall k :: 0 <= k < |ins + [weights]| ==> (ins + [weights])[k].shape == ins[0].shape) &&
              isFloating(ins[0].dtype) &&
              (forall k :: 0 <= k < |ins + [weights]| ==> (ins + [weights])[k].dtype == ins[0].dtype)
    ensures ins[0].shape.None? ==> r == Fail(TypeError)
  {
    var dds := ins + [weights];
    var input0 := ins[0];
    if input0.shape.None? then Fail(TypeError)
    else if |input0.shape.value| != dim then Fail(TypeFunctionError)
    else
      var dims := InputChecks.Dimensions(dds, dim);
      if dims.Fail? then dims
      else
        var shapes := InputChecks.Shapes(dds, [input0.shape]);
        if shapes.Fail? then shapes
        else
          var sub := InputChecks.Subtype([input0], isFloating);
          if sub.Fail? then sub
          else InputChecks.Dtypes(dds, input0.dtype)
  }

  /** `_type_function`: nothing to do without inputs; otherwise the inputs
      are checked, then the x orders, then the y orders, and with `dropdim`
      an axis whose edges have length 2 (a single bin) is dropped, y first. */
  function TypePlan(ins: seq<Descriptor>, weights: Descriptor, ox: Orders, oy: Option<Orders>, dropdim: bool,
                    table: seq<Descriptor>, isFloating: Option<DType> -> bool, isInteger: Option<DType> -> bool): (r: Result<Option<Plan>>)
    ensures |ins| == 0 <==> r == Ok(None)
    ensures r.Ok? && |ins| > 0 ==>
              CheckIntegrands(ins, weights, if oy.None? then 1 else 2, isFloating).Pass? &&
              OrdersOk(ox, ins[0].shape.value[0], table, isInteger) &&
              (oy.Some? ==> OrdersOk(oy.value, ins[0].shape.value[1], table, isInteger))
    ensures r.Ok? && r.value.Some? ==>
              var p := r.value.value;
              p.dtype == ins[0].dtype && |p.shape| == |p.edges| &&
              (p.kernel == Sum2d <==> |p.shape| == 2) &&
              (oy.None? <==> p.kernel == Sum1d) &&
              (p.kernel == DropX || p.kernel == DropY ==> dropdim)
    ensures r.Ok? && r.value.Some? && r.value.value.kernel == Sum1d ==>
              r.value.value.edges == [ox.dd.axesEdges[0]] && r.value.value.shape == [table[ox.dd.axesEdges[0]].shape.value[0] as int - 1]
    ensures r.Ok? && r.value.Some? && r.value.value.kernel == DropY ==>
              oy.Some? && table[oy.value.dd.axesEdges[0]].shape == Some([2]) &&
              r.value.value.edges == [ox.dd.axesEdges[0]] && r.value.value.shape == [table[ox.dd.axesEdges[0]].shape.value[0] as int - 1]
    ensures r.Ok? && r.value.Some? && r.value.value.kernel == DropX ==>
              oy.Some? && table[oy.value.dd.axesEdges[0]].shape != Some([2]) && table[ox.dd.axesEdges[0]].shape == Some([2]) &&
              r.value.value.edges == [oy.value.dd.axesEdges[0]] && r.value.value.shape == [table[oy.value.dd.axesEdges[0]].shape.value[0] as int - 1]
    ensures r.Ok? && r.value.Some? && r.value.value.kernel == Sum2d ==>
              oy.Some? &&
              (dropdim ==> table[oy.value.dd.axesEdges[0]].shape != Some([2]) && table[ox.dd.axesEdges[0]].shape != Some([2])) &&
              r.value.value.edges == [ox.dd.axesEdges[0], oy.value.dd.axesEdges[0]] &&
              r.value.value.shape == [table[ox.dd.axesEdges[0]].shape.value[0] as int - 1, table[oy.value.dd.axesEdges[0]].shape.value[0] as int - 1]
  {
    if |ins| == 0 then Ok(None)
    else
      var dim := if oy.None? then 1 else 2;
      var checked := CheckIntegrands(ins, weights, dim, isFloating);
      if checked.Fail? then Err(checked.error)
      else
        var shape := ins[0].shape.value;
        var x := CheckOrders(ox, shape[0], table, isInteger);
        if x.Err? then Err(x.error)
        else if oy.None? then Ok(Some(Plan(ins[0].dtype, [x.value.0 as int - 1], [x.value.1], Sum1d)))
        else
          var y := CheckOrders(oy.value, shape[1], table, isInteger);
          if y.Err? then Err(y.error)
          else if dropdim && y.value.0 == 2 then Ok(Some(Plan(ins[0].dtype, [x.value.0 as int - 1], [x.value.1], DropY)))
          else if dropdim && x.value.0 == 2 then Ok(Some(Plan(ins[0].dtype, [y.value.0 as int - 1], [y.value.1], DropX)))
          else Ok(Some(Plan(ins[0].dtype, [x.value.0 as int - 1, y.value.0 as int - 1], [x.value.1, y.value.1], Sum2d)))
  }

  /** Orders that pass the check fit the data exactly: their bins end at the
      length of the axis, which is what the kernels require. */
  lemma CheckedOrdersFit(o: Orders, orders: seq<int>, length: nat, table: seq<Descriptor>, isInteger: Option<DType> -> bool)
    requires OrdersOk(o, length, table, isInteger) && o.data == Some(orders)
    ensures Start(orders, |orders|) == length
  {
    StartIsSum(orders, |orders|);
    assert orders[..|orders|] == orders;
  }

  // ---------------------------------------------------------------------
  // The node

  /** The parts of `IntegratorCore` its type function and `taint` use.
      Inputs are named by handle. */
  class Core {
    const dropdim: bool
    const weightsInput: int
    const ordersXInput: int
    /** The `orders_y` input, created only for `ndim == 2`. */
    const ordersYCreated: Option<int>
    /** The `_orders_y_input` attribute: cleared at the end of `__init__`
        and set again by each run of the type function that has inputs. */
    var ordersYInput: Option<int>
    /** The `function` attribute. */
    var kernel: Option<Kernel>

    /** `__init__`: the weights and x orders inputs, and the y orders input
        when `ndim == 2`; `_orders_y_input` is None afterwards. */
    constructor(dropdim: bool, ndim: Option<int>, weightsInput: int, ordersXInput: int, ordersYInput: int)
      ensures this.dropdim == dropdim
      ensures this.weightsInput == weightsInput && this.ordersXInput == ordersXInput
      ensures ordersYCreated == (if ndim == Some(2) then Some(ordersYInput) else None)
      ensures this.ordersYInput == None && kernel == None
    {
      this.dropdim := dropdim;
      this.weightsInput := weightsInput;
      this.ordersXInput := ordersXInput;
      ordersYCreated := if ndim == Some(2) then Some(ordersYInput) else None;
      this.ordersYInput := None;
      kernel := None;
    }

    /** `taint`: a taint from an orders input raises CriticalError, otherwise
        the ordinary taint goes ahead.  The y orders count only once the type
        function has recorded them. */
    method Taint(caller: Option<int>) returns (r: Outcome)
      ensures r.Fail? <==> caller.Some? && (caller.value == ordersXInput || caller == ordersYInput)
      ensures r.Fail? ==> r.error == CriticalError
    {
      if caller.Some? && (caller.value == ordersXInput || caller == ordersYInput) {
        r := Fail(CriticalError);
      } else {
        r := Pass;
      }
    }

    /** `_type_function`: with inputs, `_orders_y_input` is looked up before
        any check; `function` is set only when every check passes. */
    method TypeFunction(ins: seq<Descriptor>, weights: Descriptor, ox: Orders, oy: Option<Orders>,
                        table: seq<Descriptor>, isFloating: Option<DType> -> bool, isInteger: Option<DType> -> bool)
      returns (r: Result<Option<Plan>>)
      requires oy.Some? <==> ordersYCreated.Some?
      modifies this
      ensures r == TypePlan(ins, weights, ox, oy, dropdim, table, isFloating, isInteger)
      ensures ordersYInput == (if |ins| == 0 then old(ordersYInput) else ordersYCreated)
      ensures kernel == (if r.Ok? && r.value.Some? then Some(r.value.value.kernel) else old(kernel))
    {
      if |ins| == 0 {
        return Ok(None);
      }
      ordersYInput := ordersYCreated;
      r := TypePlan(ins, weights, ox, oy, dropdim, table, isFloating, isInteger);
      if r.Ok? && r.value.Some? {
        kernel := Some(r.value.value.kernel);
      }
    }
  }
}
