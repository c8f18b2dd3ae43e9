/** What reading and writing an output's data does to the net
    (src/dagflow/core/output.py `data`, `set`, `seti`, `_set_data` and
    `__taint_children`), on values.  An output's `_data` is a reference into
    the buffer store; writing goes into the referenced array in place, so
    every port sharing the buffer sees the new values. */
module OutputData {
  import opened Base
  import opened DataDescriptor
  import opened Links
  import opened NodeFlags
  import opened TaintWalk
  import opened InvalidWalk
  import opened TypeWalk
  import opened Ports
  import NodeOps

  /** The marks of the net and the buffer store. */
  datatype Cell = Cell(marks: Marks, bufs: seq<Array>)

  /** `_data[:] = v`: the data are broadcast into the referenced array as
      numpy assigns a full slice; no array raises TypeError, an array with
      no axes IndexError, and data that do not broadcast into its shape
      ValueError. */
  function WriteAll(bufs: seq<Array>, ref: Option<nat>, v: Array): (r: Result<seq<Array>>)
    ensures Get(bufs, ref).None? ==> r == Err(TypeError)
    ensures Get(bufs, ref).Some? ==>
              (r.Ok? <==> |Get(bufs, ref).value.shape| > 0 && BroadcastsInto(v.shape, Get(bufs, ref).value.shape))
    ensures Get(bufs, ref).Some? && |Get(bufs, ref).value.shape| == 0 ==> r == Err(IndexError)
    ensures r.Err? && Get(bufs, ref).Some? && |Get(bufs, ref).value.shape| > 0 ==> r.error == ValueError
    ensures r.Ok? ==> Stable(bufs, r.value) && |r.value| == |bufs| && Sized(Get(r.value, ref).value) &&
                      Get(r.value, ref).value.flat == Fill(v, Get(bufs, ref).value.shape)
    ensures r.Ok? ==> forall k :: 0 <= k < |bufs| && Some(k) != ref ==> r.value[k] == bufs[k]
  {
    match Get(bufs, ref)
    case None => Err(TypeError)
    case Some(a) =>
      if |a.shape| == 0 then Err(IndexError)
      else if !BroadcastsInto(v.shape, a.shape) then Err(ValueError)
      else Ok(bufs[ref.value := a.(flat := Fill(v, a.shape))])
  }

  /** `(self._data != data).any()`, the test of `check_taint`: with no
      array every element of the data differs from None; otherwise the data
      are compared with the array after broadcasting them into its shape,
      and data that do not broadcast raise ValueError. */
  function Differs(cur: Option<Array>, v: Array): (r: Result<bool>)
    ensures cur.None? ==> r == Ok(|v.flat| > 0)
    ensures cur.Some? ==> (r.Ok? <==> BroadcastsInto(v.shape, cur.value.shape))
    ensures r.Err? ==> r.error == ValueError
    ensures r.Ok? && cur.Some? ==> (r.value <==> Fill(v, cur.value.shape) != cur.value.flat)
  {
    match cur
    case None => Ok(|v.flat| > 0)
    case Some(a) =>
      if !BroadcastsInto(v.shape, a.shape) then Err(ValueError)
      else Ok(Fill(v, a.shape) != a.flat)
  }

  /** `_data[idx] = x` on the flattened array: Python indexing, negative
      indices counting from the end; no array raises TypeError, an index
      out of range IndexError. */
  function FillAt(bufs: seq<Array>, ref: Option<nat>, idx: int, x: real): (r: Result<seq<Array>>)
    ensures Get(bufs, ref).None? ==> r == Err(TypeError)
    ensures Get(bufs, ref).Some? ==> (r.Ok? <==> PyIndex(|Get(bufs, ref).value.flat|, idx).Some?)
    ensures r.Err? && Get(bufs, ref).Some? ==> r.error == IndexError
    ensures r.Ok? ==> Stable(bufs, r.value) && |r.value| == |bufs| &&
                      var k := PyIndex(|bufs[ref.value].flat|, idx).value;
                      r.value[ref.value].flat == bufs[ref.value].flat[k := x]
    ensures r.Ok? ==> forall k :: 0 <= k < |bufs| && Some(k) != ref ==> r.value[k] == bufs[k]
  {
    match Get(bufs, ref)
    case None => Err(TypeError)
    case Some(a) =>
      match PyIndex(|a.flat|, idx)
      case None => Err(IndexError)
      case Some(k) => Ok(bufs[ref.value := a.(flat := a.flat[k := x])])
  }

  /** `Output.__taint_children`: the children of output `o` are tainted,
      then the node's parents are invalidated (an unconnected input raises
      AttributeError, and the walk stops there), then the node itself is
      marked untainted. */
  function TaintAfterWrite(g: Acyclic, o: nat, m: Marks): (r: (Marks, Outcome))
    requires o < |g.net.outputs| && Fits(g.net, m)
    ensures Fits(g.net, r.0) && r.0.calls == TaintInputs(g, o, 0, false, false, m).calls
    ensures r.1.Fail? ==> r.1.error == AttributeError
    ensures r.1.Pass? ==> !r.0.flags[g.net.outputs[o].node].tainted
  {
    var m1 := TaintInputs(g, o, 0, false, false, m);
    var n := g.net.outputs[o].node;
    var u := InvUp(g, n, 0, true, m1.flags);
    InvUpError(g, n, 0, true, m1.flags);
    if u.1.Fail? then (m1.(flags := u.0), u.1)
    else (Marks(u.0[n := u.0[n].(tainted := false)], m1.calls), Pass)
  }

  /** `Output.set(v, check_taint, force_taint)` on the output `o` whose
      `_data` is `ref`: a frozen node refuses unless forced and the result
      is False; with `check_taint` nothing is written when the data equal
      the values held; otherwise the data are broadcast in, the change is
      propagated, and the result is True. */
  function SetValues(g: Acyclic, o: nat, ref: Option<nat>, v: Array, check: bool, force: bool, c: Cell): (r: (Cell, Result<bool>))
    requires o < |g.net.outputs| && Fits(g.net, c.marks)
    ensures Fits(g.net, r.0.marks) && Stable(c.bufs, r.0.bufs) && |r.0.bufs| == |c.bufs|
    ensures c.marks.flags[g.net.outputs[o].node].frozen && !force ==> r == (c, Ok(false))
    ensures r.1 == Ok(false) ==> r.0 == c
    ensures r.1.Err? && r.1.error != AttributeError ==> r.0 == c && r.1.error in {TypeError, IndexError, ValueError}
    ensures r.1 == Ok(true) || (r.1.Err? && r.1.error == AttributeError) ==>
              Get(c.bufs, ref).Some? && |Get(c.bufs, ref).value.shape| > 0 &&
              BroadcastsInto(v.shape, Get(c.bufs, ref).value.shape) &&
              Get(r.0.bufs, ref) == Some(Get(c.bufs, ref).value.(flat := Fill(v, Get(c.bufs, ref).value.shape)))
    ensures forall k :: 0 <= k < |c.bufs| && Some(k) != ref ==> r.0.bufs[k] == c.bufs[k]
  {
    if c.marks.flags[g.net.outputs[o].node].frozen && !force then (c, Ok(false))
    else
      var d: Result<bool> := if !check then Ok(true) else Differs(Get(c.bufs, ref), v);
      if d.Err? then (c, d)
      else if !d.value then (c, Ok(false))
      else
        match WriteAll(c.bufs, ref, v)
        case Err(e) => (c, Err(e))
        case Ok(b) =>
          var t := TaintAfterWrite(g, o, c.marks);
          (Cell(t.0, b), if t.1.Fail? then Err(t.1.error) else Ok(true))
  }

  /** `set(x)` with a scalar, as the Jacobian tests do: on an unfrozen
      output whose array has axes, every element becomes x. */
  lemma SetScalar(g: Acyclic, o: nat, ref: Option<nat>, t: DType, x: real, force: bool, c: Cell)
    requires o < |g.net.outputs| && Fits(g.net, c.marks)
    requires !c.marks.flags[g.net.outputs[o].node].frozen || force
    requires Get(c.bufs, ref).Some? && |Get(c.bufs, ref).value.shape| > 0
    ensures var r := SetValues(g, o, ref, Array(t, [], [x]), false, force, c);
            (r.1 == Ok(true) || r.1 == Err(AttributeError)) &&
            Get(r.0.bufs, ref).value.flat == seq(Prod(Get(c.bufs, ref).value.shape), _ => x)
  {
    var a := Get(c.bufs, ref).value;
    BroadcastsIntoItself(a.shape);
    FillScalar(t, x, a.shape);
  }

  /** `Output.seti(idx, x, check_taint, force_taint)`: the same for one
      element of the flattened array. */
  function SetValueAt(g: Acyclic, o: nat, ref: Option<nat>, idx: int, x: real, check: bool, force: bool, c: Cell): (r: (Cell, Result<bool>))
    requires o < |g.net.outputs| && Fits(g.net, c.marks)
    ensures Fits(g.net, r.0.marks) && Stable(c.bufs, r.0.bufs) && |r.0.bufs| == |c.bufs|
    ensures c.marks.flags[g.net.outputs[o].node].frozen && !force ==> r == (c, Ok(false))
    ensures r.1 == Ok(false) ==> r.0 == c
    ensures r.1.Ok? && r.1.value ==>
              Get(c.bufs, ref).Some? && var a := Get(c.bufs, ref).value;
              PyIndex(|a.flat|, idx).Some? && var k := PyIndex(|a.flat|, idx).value;
              Get(r.0.bufs, ref).Some? && Get(r.0.bufs, ref).value.flat == a.flat[k := x]
    ensures forall k :: 0 <= k < |c.bufs| && Some(k) != ref ==> r.0.bufs[k] == c.bufs[k]
  {
    if c.marks.flags[g.net.outputs[o].node].frozen && !force then (c, Ok(false))
    else
      var cur := Get(c.bufs, ref);
      var d: Result<bool> :=
        if !check then Ok(true)
        else if cur.None? then Err(TypeError)
        else match PyIndex(|cur.value.flat|, idx)
             case None => Err(IndexError)
             case Some(k) => Ok(cur.value.flat[k] != x);
      if d.Err? then (c, d)
      else if !d.value then (c, Ok(false))
      else
        match FillAt(c.bufs, ref, idx, x)
        case Err(e) => (c, Err(e))
        case Ok(b) =>
          var t := TaintAfterWrite(g, o, c.marks);
          (Cell(t.0, b), if t.1.Fail? then Err(t.1.error) else Ok(true))
  }

  /** Setting the values an output already holds, with `check_taint`,
      changes nothing and returns False; in particular a second identical
      `set` after one that went through is a no-op. */
  lemma SetSameAgain(g: Acyclic, o: nat, ref: Option<nat>, v: Array, check: bool, force: bool, c: Cell, force2: bool)
    requires o < |g.net.outputs| && Fits(g.net, c.marks)
    requires SetValues(g, o, ref, v, check, force, c).1 == Ok(true)
    ensures var c1 := SetValues(g, o, ref, v, check, force, c).0;
            SetValues(g, o, ref, v, true, force2, c1) == (c1, Ok(false))
  {
  }

  /** After a `set` that went through, every node fed by the output is
      marked by the taint and the writing node is left untainted; the
      written values are in the buffer whatever happens afterwards. */
  lemma SetTaintsChildren(g: Acyclic, o: nat, ref: Option<nat>, v: Array, check: bool, force: bool, c: Cell)
    requires o < |g.net.outputs| && Fits(g.net, c.marks)
    requires SetValues(g, o, ref, v, check, force, c).1 == Ok(true)
    ensures var r := SetValues(g, o, ref, v, check, force, c).0;
            !r.marks.flags[g.net.outputs[o].node].tainted &&
            forall p :: 0 <= p < |g.net.outputs[o].childInputs| ==>
              var k := InputNode(g.net, g.net.outputs[o].childInputs[p]);
              k != g.net.outputs[o].node ==> Marked(g.net, k, c.marks, r.marks)
  {
    TaintInputsMarks(g, o, 0, false, false, c.marks);
    var m1 := TaintInputs(g, o, 0, false, false, c.marks);
    var n := g.net.outputs[o].node;
    var u := InvUp(g, n, 0, true, m1.flags);
    InvUpWithin(g, n, 0, true, m1.flags);
  }

  /** `Output.data`: an output of an open node raises UnclosedGraphError;
      otherwise the node is touched and the array is returned (None while
      the output holds none). */
  function ReadData(n: nat, ref: Option<nat>, m: Marks, bufs: seq<Array>): (r: (Marks, Result<Option<Array>>))
    requires n < |m.flags| && n < |m.calls|
    ensures |r.0.flags| == |m.flags| && |r.0.calls| == |m.calls|
    ensures r.1.Err? <==> !m.flags[n].closed
    ensures r.1.Err? ==> r.1.error == UnclosedGraphError && r.0 == m
    ensures r.1.Ok? ==> r.1.value == Get(bufs, ref) && !r.0.flags[n].tainted
    ensures r.1.Ok? ==> r.0.calls[n] == m.calls[n] + (if m.flags[n].tainted then 1 else 0)
  {
    if !m.flags[n].closed then (m, Err(UnclosedGraphError))
    else
      var t := NodeOps.Touch(n, false, m);
      (t.0, Ok(Get(bufs, ref)))
  }

  /** Reading the data twice evaluates the node at most once: the second
      read changes nothing and returns the same array. */
  lemma ReadTwice(n: nat, ref: Option<nat>, m: Marks, bufs: seq<Array>)
    requires n < |m.flags| && n < |m.calls| && ReadData(n, ref, m, bufs).1.Ok?
    ensures var r := ReadData(n, ref, m, bufs);
            ReadData(n, ref, r.0, bufs) == r
  {
    NodeOps.TouchAgain(n, false, m);
  }

  /** `Output._set_data(a, owns_buffer, forbid_reallocation)` with the
      array appended to the store: the checks of `Ports.SetData`, then,
      when the descriptor disagreed with the array, `taint_type` of the
      node (which can raise ClosedGraphError from a closed descendant,
      before the data is taken). */
  function SetOutData(g: Acyclic, o: nat, a: Array, ownsBuffer: bool, forbid: Option<bool>,
                      f: seq<Flags>, outs: seq<OutState>, bufs: seq<Array>): (r: (seq<Flags>, seq<OutState>, seq<Array>, Outcome))
    requires o < |g.net.outputs| && |f| == |g.net.nodes| && |outs| == |g.net.outputs|
    ensures |r.0| == |f| && |r.1| == |outs|
    ensures f[g.net.outputs[o].node].closed ==> r == (f, outs, bufs, Fail(ClosedGraphError))
    ensures r.3.Pass? ==> r.2 == bufs + [a] && r.1 == outs[o := r.1[o]] &&
                          Holds(r.1[o].dd, r.1[o].data, r.2) && r.1[o].ownsBuffer == ownsBuffer
    ensures r.3.Pass? && !ConsistentWith(outs[o].dd, a) ==> r.0[g.net.outputs[o].node].typesTainted
    ensures r.3.Pass? && ConsistentWith(outs[o].dd, a) ==> r.0 == f
    ensures r.3.Fail? ==> r.1 == outs && r.2 == bufs
  {
    var n := g.net.outputs[o].node;
    match SetData(outs[o], f[n].closed, g.net.outputs[o].allocatingInput.Some?, a, |bufs|, ownsBuffer, forbid)
    case Err(e) => (f, outs, bufs, Fail(e))
    case Ok(s) =>
      if !s.typeTaint then (f, outs[o := s.out], bufs + [a], Pass)
      else
        var t := TypeNode(g, n, false, f);
        if t.1.Fail? then (t.0, outs, bufs, t.1)
        else
          TypeAgain(g, n, false, f);
          (t.0, outs[o := s.out], bufs + [a], Pass)
  }
}
