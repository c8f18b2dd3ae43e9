/** Closing a node (src/dagflow/core/node.py `close`) on values: the type
    pass, the allocation pass, the parents, the node itself and, when asked,
    its children.  The `together` list is not part of this model. */
module CloseWalk {
  import opened Base
  import opened Links
  import opened NodeFlags
  import opened Reach
  import opened UpdateWalk
  import opened AllocWalk

  /** No node that was closed in `f0` is open in `f1`. */
  predicate StaysClosed(f0: seq<Flags>, f1: seq<Flags>)
  {
    |f1| == |f0| && forall k :: 0 <= k < |f0| && f0[k].closed ==> f1[k].closed
  }

  /** Every closed node is allocated. */
  predicate ClosedAllocated(f: seq<Flags>)
  {
    forall k :: 0 <= k < |f| && f[k].closed ==> f[k].isAllocated
  }

  /** `f1` has the `closed` flags of `f0` and clears no `allocated` flag. */
  predicate Keeps(f0: seq<Flags>, f1: seq<Flags>)
  {
    |f1| == |f0| &&
    forall k :: 0 <= k < |f0| ==> f1[k].closed == f0[k].closed && (f0[k].isAllocated ==> f1[k].isAllocated)
  }

  /** Nodes ranked at `r` or above have the same flags in `f0` and `f1`. */
  predicate FixedFrom(g: Acyclic, f0: seq<Flags>, f1: seq<Flags>, r: nat)
    requires |f0| == |g.net.nodes|
  {
    |f1| == |f0| && forall k :: 0 <= k < |f0| && r <= g.rank[k] ==> f1[k] == f0[k]
  }

  /** The type pass opens and closes nothing, deallocates nothing, and
      touches no node ranked above `n`. */
  lemma UpdKeeps(g: Acyclic, n: nat, up: bool, tf: seq<Outcome>, f: seq<Flags>)
    requires n < |g.net.nodes| && |f| == |g.net.nodes| && |tf| == |g.net.nodes|
    ensures Keeps(f, UpdNode(g, n, up, tf, f).0)
    ensures FixedFrom(g, f, UpdNode(g, n, up, tf, f).0, g.rank[n] + 1)
  {
    UpdNodeWithin(g, n, up, tf, f);
    forall k | k in Up(g, n, 0)
      ensures g.rank[k] < g.rank[n]
    {
      UpBelow(g, n, 0, k);
    }
  }

  /** The allocation pass opens and closes nothing, deallocates nothing,
      and touches no node ranked above `n`. */
  lemma AllocKeeps(g: Acyclic, n: nat, up: bool, w: World)
    requires n < |g.net.nodes| && Sized(g.net, w)
    ensures Keeps(w.flags, AllocNode(g, n, up, w).0.flags)
    ensures FixedFrom(g, w.flags, AllocNode(g, n, up, w).0.flags, g.rank[n] + 1)
  {
    AllocNodeWithin(g, n, up, w);
    forall k | k in Up(g, n, 0)
      ensures g.rank[k] < g.rank[n]
    {
      UpBelow(g, n, 0, k);
    }
  }

  /** `self.fd.closed = self.fd.allocated`. */
  function Seal(n: nat, w: World): (r: World)
    requires n < |w.flags|
    ensures r.store == w.store && r.callbacks == w.callbacks && |r.flags| == |w.flags|
    ensures r.flags[n].closed == w.flags[n].isAllocated
    ensures r.flags[n].(closed := w.flags[n].closed) == w.flags[n]
    ensures forall k :: 0 <= k < |w.flags| && k != n ==> r.flags[k] == w.flags[k]
  {
    w.(flags := w.flags[n := w.flags[n].(closed := w.flags[n].isAllocated)])
  }

  /** `Node.close(close_parents=cp, strict=strict, close_children=cc)`.
      A closed node is done and an invalid one raises ClosingError;
      otherwise the type and allocation passes run and the close goes on
      with the parents.  The result is the node's final `closed` flag; a
      strict close never returns False. */
  function CloseNode(g: Acyclic, n: nat, cp: bool, strict: bool, cc: bool, tf: seq<Outcome>, w: World): (r: (World, Result<bool>))
    requires n < |g.net.nodes| && Sized(g.net, w) && |tf| == |g.net.nodes|
    ensures Sized(g.net, r.0) && StaysClosed(w.flags, r.0.flags)
    ensures ClosedAllocated(w.flags) ==> ClosedAllocated(r.0.flags)
    ensures w.flags[n].closed ==> r == (w, Ok(true))
    ensures !w.flags[n].closed && w.flags[n].invalid ==> r == (w, Err(ClosingError))
    ensures r.1.Ok? ==> r.1.value == r.0.flags[n].closed
    ensures strict && r.1.Ok? ==> r.1.value
    ensures !cc ==> FixedFrom(g, w.flags, r.0.flags, g.rank[n] + 1)
    decreases if cc then 1 else 0, if cc then |g.net.nodes| - g.rank[n] else g.rank[n], 4, 0
  {
    if w.flags[n].closed then (w, Ok(true))
    else if w.flags[n].invalid then (w, Err(ClosingError))
    else
      var a := Passes(g, n, cp, strict, tf, w);
      if a.1.Err? then a else CloseRest(g, n, cp, strict, cc, tf, a.0)
  }

  /** The type pass, then the allocation pass, parents first when `cp`; a
      ClosingError of either is swallowed unless `strict`. */
  function Passes(g: Acyclic, n: nat, cp: bool, strict: bool, tf: seq<Outcome>, w: World): (r: (World, Result<bool>))
    requires n < |g.net.nodes| && Sized(g.net, w) && |tf| == |g.net.nodes|
    ensures Sized(g.net, r.0) && Keeps(w.flags, r.0.flags)
    ensures FixedFrom(g, w.flags, r.0.flags, g.rank[n] + 1)
    ensures r.1.Ok? ==> r.1.value
    ensures r.1.Err? && r.1.error == ClosingError ==> strict
  {
    UpdKeeps(g, n, cp, tf, w.flags);
    var u := UpdNode(g, n, cp, tf, w.flags);
    var w1 := w.(flags := u.0);
    if u.1.Fail? && (strict || u.1.error != ClosingError) then (w1, Err(u.1.error))
    else
      AllocKeeps(g, n, cp, w1);
      var a := AllocNode(g, n, cp, w1);
      if a.1.Err? && (strict || a.1.error != ClosingError) then a
      else (a.0, Ok(true))
  }

  /** After the passes: every parent is closed when `cp` (a False from a
      parent returns False), then the node is sealed. */
  function CloseRest(g: Acyclic, n: nat, cp: bool, strict: bool, cc: bool, tf: seq<Outcome>, w: World): (r: (World, Result<bool>))
    requires n < |g.net.nodes| && Sized(g.net, w) && |tf| == |g.net.nodes| && !w.flags[n].closed
    ensures Sized(g.net, r.0) && StaysClosed(w.flags, r.0.flags)
    ensures ClosedAllocated(w.flags) ==> ClosedAllocated(r.0.flags)
    ensures r.1.Ok? ==> r.1.value == r.0.flags[n].closed
    ensures strict && r.1.Ok? ==> r.1.value
    ensures !cc ==> FixedFrom(g, w.flags, r.0.flags, g.rank[n] + 1)
    decreases if cc then 1 else 0, if cc then |g.net.nodes| - g.rank[n] else g.rank[n], 3, 0
  {
    var p := if cp then CloseParents(g, n, 0, tf, w) else (w, Ok(true));
    if p.1 != Ok(true) then p
    else
      SealKeeps(g, n, w, p.0);
      var r := CloseSealed(g, n, strict, cc, tf, Seal(n, p.0));
      StaysClosedTrans(w.flags, Seal(n, p.0).flags, r.0.flags);
      r
  }

  /** Sealing an open node after a parents loop that left it alone keeps
      every closed node closed and allocated, and changes nothing ranked
      above the node. */
  lemma SealKeeps(g: Acyclic, n: nat, w0: World, w1: World)
    requires n < |g.net.nodes| && Sized(g.net, w0) && Sized(g.net, w1) && !w0.flags[n].closed
    requires StaysClosed(w0.flags, w1.flags) && (ClosedAllocated(w0.flags) ==> ClosedAllocated(w1.flags))
    requires FixedFrom(g, w0.flags, w1.flags, g.rank[n])
    ensures var f := Seal(n, w1).flags;
            StaysClosed(w0.flags, f) && (ClosedAllocated(w0.flags) ==> ClosedAllocated(f)) &&
            FixedFrom(g, w0.flags, f, g.rank[n] + 1)
  {
  }

  lemma StaysClosedTrans(f0: seq<Flags>, f1: seq<Flags>, f2: seq<Flags>)
    requires StaysClosed(f0, f1) && StaysClosed(f1, f2)
    ensures StaysClosed(f0, f2)
  {
  }

  /** Once sealed (closed exactly when allocated): a strict close that left
      the node open raises ClosingError; otherwise, when `cc`, every child
      node is closed in turn, and the node's `closed` flag is the result. */
  function CloseSealed(g: Acyclic, n: nat, strict: bool, cc: bool, tf: seq<Outcome>, w: World): (r: (World, Result<bool>))
    requires n < |g.net.nodes| && Sized(g.net, w) && |tf| == |g.net.nodes|
    ensures Sized(g.net, r.0) && StaysClosed(w.flags, r.0.flags)
    ensures ClosedAllocated(w.flags) ==> ClosedAllocated(r.0.flags)
    ensures r.1.Ok? ==> r.1.value == r.0.flags[n].closed
    ensures strict && r.1.Ok? ==> r.1.value
    ensures !cc ==> r.0 == w
    decreases if cc then 1 else 0, if cc then |g.net.nodes| - g.rank[n] else g.rank[n], 2, 0
  {
    if strict && !w.flags[n].closed then (w, Err(ClosingError))
    else
      var c := if cc then CloseKids(g, n, 0, strict, tf, w) else (w, Pass);
      if c.1.Fail? then (c.0, Err(c.1.error)) else (c.0, Ok(c.0.flags[n].closed))
  }

  /** The loop over `inputs.iter_all()` closing every parent node, strictly
      and with its own parents; an unconnected input has no `parent_node`
      and raises AttributeError. */
  function CloseParents(g: Acyclic, n: nat, j: nat, tf: seq<Outcome>, w: World): (r: (World, Result<bool>))
    requires n < |g.net.nodes| && j <= |InputsOf(g.net, n)| && Sized(g.net, w) && |tf| == |g.net.nodes|
    ensures Sized(g.net, r.0) && StaysClosed(w.flags, r.0.flags)
    ensures ClosedAllocated(w.flags) ==> ClosedAllocated(r.0.flags)
    ensures r.1.Ok? ==> r.1.value
    ensures FixedFrom(g, w.flags, r.0.flags, g.rank[n])
    decreases 0, g.rank[n], 1, |InputsOf(g.net, n)| - j
  {
    if j == |InputsOf(g.net, n)| then (w, Ok(true))
    else
      var i := InputsOf(g.net, n)[j];
      match ParentNode(g.net, i)
      case None => (w, Err(AttributeError))
      case Some(p) =>
        ParentBelow(g, i);
        var r1 := CloseNode(g, p, true, true, false, tf, w);
        if r1.1 != Ok(true) then r1 else CloseParents(g, n, j + 1, tf, r1.0)
  }

  /** The `close_children` loop over the positional outputs of `n` from the
      `j`-th on; the children's results are ignored, their errors are not. */
  function CloseKids(g: Acyclic, n: nat, j: nat, strict: bool, tf: seq<Outcome>, w: World): (r: (World, Outcome))
    requires n < |g.net.nodes| && j <= |g.net.nodes[n].outs.posList| && Sized(g.net, w) && |tf| == |g.net.nodes|
    ensures Sized(g.net, r.0) && StaysClosed(w.flags, r.0.flags)
    ensures ClosedAllocated(w.flags) ==> ClosedAllocated(r.0.flags)
    decreases 1, |g.net.nodes| - g.rank[n], 1, |g.net.nodes[n].outs.posList| - j
  {
    if j == |g.net.nodes[n].outs.posList| then (w, Pass)
    else
      var r1 := CloseKidIns(g, OutAt(g.net, n, j), 0, strict, tf, w);
      if r1.1.Fail? then r1 else CloseKids(g, n, j + 1, strict, tf, r1.0)
  }

  /** The nodes of the child inputs of output `o`, from the `q`-th on, each
      closed with its own children. */
  function CloseKidIns(g: Acyclic, o: nat, q: nat, strict: bool, tf: seq<Outcome>, w: World): (r: (World, Outcome))
    requires o < |g.net.outputs| && q <= |g.net.outputs[o].childInputs| && Sized(g.net, w) && |tf| == |g.net.nodes|
    ensures Sized(g.net, r.0) && StaysClosed(w.flags, r.0.flags)
    ensures ClosedAllocated(w.flags) ==> ClosedAllocated(r.0.flags)
    decreases 1, |g.net.nodes| - g.rank[g.net.outputs[o].node], 0, |g.net.outputs[o].childInputs| - q
  {
    if q == |g.net.outputs[o].childInputs| then (w, Pass)
    else
      var c := g.net.inputs[g.net.outputs[o].childInputs[q]].node;
      var r1 := CloseNode(g, c, true, strict, true, tf, w);
      if r1.1.Err? then (r1.0, Fail(r1.1.error)) else CloseKidIns(g, o, q + 1, strict, tf, r1.0)
  }

  /** With parents and strictly, a node with an unconnected input never
      closes: the type pass, the allocation pass or the parents loop
      raises. */
  lemma CloseUnbound(g: Acyclic, n: nat, q: nat, cc: bool, tf: seq<Outcome>, w: World)
    requires n < |g.net.nodes| && Sized(g.net, w) && |tf| == |g.net.nodes|
    requires !w.flags[n].closed && !w.flags[n].invalid && Unbound(g.net, n, q)
    ensures CloseNode(g, n, true, true, cc, tf, w).1.Err?
  {
    if w.flags[n].typesTainted {
      UpdUnbound(g, n, q, tf, w.flags);
    } else {
      assert w.(flags := w.flags) == w;
      if !(w.flags[n].isAllocated && !w.flags[n].needsReallocation) {
        AllocUnbound(g, n, q, w);
      } else {
        CloseParentsUnbound(g, n, 0, q, tf, w);
      }
    }
  }

  lemma {:induction false} CloseParentsUnbound(g: Acyclic, n: nat, j: nat, q: nat, tf: seq<Outcome>, w: World)
    requires n < |g.net.nodes| && j <= q && Unbound(g.net, n, q) && Sized(g.net, w) && |tf| == |g.net.nodes|
    ensures CloseParents(g, n, j, tf, w).1.Err?
    decreases q - j
  {
    var i := InputsOf(g.net, n)[j];
    if j < q && ParentNode(g.net, i).Some? {
      var p := ParentNode(g.net, i).value;
      ParentBelow(g, i);
      var r1 := CloseNode(g, p, true, true, false, tf, w);
      if r1.1 == Ok(true) {
        CloseParentsUnbound(g, n, j + 1, q, tf, r1.0);
      }
    }
  }

  /** The parents of `n` from the `j`-th input on are closed. */
  predicate ParentsClosed(net: Net, n: nat, j: nat, f: seq<Flags>)
    requires Wired(net) && n < |net.nodes| && |f| == |net.nodes|
  {
    forall q :: j <= q < |InputsOf(net, n)| && ParentNode(net, InputsOf(net, n)[q]).Some? ==>
      f[ParentNode(net, InputsOf(net, n)[q]).value].closed
  }

  /** A close with parents that returns at all, strict or not, leaves every
      parent of the node closed. */
  lemma CloseClosesParents(g: Acyclic, n: nat, strict: bool, cc: bool, tf: seq<Outcome>, w: World)
    requires n < |g.net.nodes| && Sized(g.net, w) && |tf| == |g.net.nodes| && !w.flags[n].closed
    requires CloseNode(g, n, true, strict, cc, tf, w).1.Ok?
    ensures ParentsClosed(g.net, n, 0, CloseNode(g, n, true, strict, cc, tf, w).0.flags)
  {
    var a := Passes(g, n, true, strict, tf, w);
    var p := CloseParents(g, n, 0, tf, a.0);
    CloseParentsAll(g, n, 0, tf, a.0);
    var w3 := Seal(n, p.0);
    var r := CloseSealed(g, n, strict, cc, tf, w3).0;
    forall q | 0 <= q < |InputsOf(g.net, n)| && ParentNode(g.net, InputsOf(g.net, n)[q]).Some?
      ensures r.flags[ParentNode(g.net, InputsOf(g.net, n)[q]).value].closed
    {
      ParentBelow(g, InputsOf(g.net, n)[q]);
    }
  }

  lemma {:induction false} CloseParentsAll(g: Acyclic, n: nat, j: nat, tf: seq<Outcome>, w: World)
    requires n < |g.net.nodes| && j <= |InputsOf(g.net, n)| && Sized(g.net, w) && |tf| == |g.net.nodes|
    requires CloseParents(g, n, j, tf, w).1.Ok?
    ensures ParentsClosed(g.net, n, j, CloseParents(g, n, j, tf, w).0.flags)
    decreases |InputsOf(g.net, n)| - j
  {
    if j < |InputsOf(g.net, n)| {
      CloseParentsStep(g, n, j, tf, w);
      var p := ParentNode(g.net, InputsOf(g.net, n)[j]).value;
      var r1 := CloseNode(g, p, true, true, false, tf, w);
      var f := CloseParents(g, n, j + 1, tf, r1.0).0.flags;
      CloseParentsAll(g, n, j + 1, tf, r1.0);
      assert StaysClosed(r1.0.flags, f);
      ParentsClosedCons(g.net, n, j, f);
    }
  }

  /** A parents loop that succeeds from the `j`-th input closed that input's
      parent and went on from there. */
  lemma CloseParentsStep(g: Acyclic, n: nat, j: nat, tf: seq<Outcome>, w: World)
    requires n < |g.net.nodes| && j < |InputsOf(g.net, n)| && Sized(g.net, w) && |tf| == |g.net.nodes|
    requires CloseParents(g, n, j, tf, w).1.Ok?
    ensures ParentNode(g.net, InputsOf(g.net, n)[j]).Some?
    ensures var p := ParentNode(g.net, InputsOf(g.net, n)[j]).value;
            p < |g.net.nodes| &&
            var r1 := CloseNode(g, p, true, true, false, tf, w);
            r1.1 == Ok(true) && r1.0.flags[p].closed && CloseParents(g, n, j, tf, w) == CloseParents(g, n, j + 1, tf, r1.0)
  {
    ParentBelow(g, InputsOf(g.net, n)[j]);
  }

  lemma ParentsClosedCons(net: Net, n: nat, j: nat, f: seq<Flags>)
    requires Wired(net) && n < |net.nodes| && |f| == |net.nodes| && j < |InputsOf(net, n)|
    requires ParentsClosed(net, n, j + 1, f)
    requires ParentNode(net, InputsOf(net, n)[j]).Some? ==> f[ParentNode(net, InputsOf(net, n)[j]).value].closed
    ensures ParentsClosed(net, n, j, f)
  {
  }

  /** The nodes fed by the child inputs of output `o`, from the `q`-th on,
      are closed. */
  predicate InputsClosed(net: Net, o: nat, q: nat, f: seq<Flags>)
    requires Wired(net) && o < |net.outputs| && |f| == |net.nodes|
  {
    forall k :: q <= k < |net.outputs[o].childInputs| ==> f[net.inputs[net.outputs[o].childInputs[k]].node].closed
  }

  /** Every node fed by a positional output of `n`, from the `j`-th on, is
      closed. */
  predicate KidsClosed(g: Acyclic, n: nat, j: nat, f: seq<Flags>)
    requires n < |g.net.nodes| && |f| == |g.net.nodes|
  {
    forall k :: j <= k < |g.net.nodes[n].outs.posList| ==> InputsClosed(g.net, OutAt(g.net, n, k), 0, f)
  }

  /** A strict close with children that succeeds leaves every child node
      closed. */
  lemma CloseClosesChildren(g: Acyclic, n: nat, cp: bool, tf: seq<Outcome>, w: World)
    requires n < |g.net.nodes| && Sized(g.net, w) && |tf| == |g.net.nodes| && !w.flags[n].closed
    requires CloseNode(g, n, cp, true, true, tf, w).1.Ok?
    ensures KidsClosed(g, n, 0, CloseNode(g, n, cp, true, true, tf, w).0.flags)
  {
    var a := Passes(g, n, cp, true, tf, w);
    var p := if cp then CloseParents(g, n, 0, tf, a.0) else (a.0, Ok(true));
    assert CloseNode(g, n, cp, true, true, tf, w) == CloseRest(g, n, cp, true, true, tf, a.0);
    assert p.1 == Ok(true);
    var w3 := Seal(n, p.0);
    assert CloseNode(g, n, cp, true, true, tf, w) == CloseSealed(g, n, true, true, tf, w3);
    CloseKidsAll(g, n, 0, w3, tf);
  }

  lemma {:induction false} CloseKidsAll(g: Acyclic, n: nat, j: nat, w: World, tf: seq<Outcome>)
    requires n < |g.net.nodes| && j <= |g.net.nodes[n].outs.posList| && Sized(g.net, w) && |tf| == |g.net.nodes|
    requires CloseKids(g, n, j, true, tf, w).1.Pass?
    ensures KidsClosed(g, n, j, CloseKids(g, n, j, true, tf, w).0.flags)
    decreases |g.net.nodes[n].outs.posList| - j
  {
    if j < |g.net.nodes[n].outs.posList| {
      var o := OutAt(g.net, n, j);
      var r1 := CloseKidIns(g, o, 0, true, tf, w);
      CloseKidInsAll(g, o, 0, w, tf);
      CloseKidsAll(g, n, j + 1, r1.0, tf);
    }
  }

  lemma {:induction false} CloseKidInsAll(g: Acyclic, o: nat, q: nat, w: World, tf: seq<Outcome>)
    requires o < |g.net.outputs| && q <= |g.net.outputs[o].childInputs| && Sized(g.net, w) && |tf| == |g.net.nodes|
    requires CloseKidIns(g, o, q, true, tf, w).1.Pass?
    ensures InputsClosed(g.net, o, q, CloseKidIns(g, o, q, true, tf, w).0.flags)
    decreases |g.net.outputs[o].childInputs| - q
  {
    if q < |g.net.outputs[o].childInputs| {
      var c := g.net.inputs[g.net.outputs[o].childInputs[q]].node;
      var r1 := CloseNode(g, c, true, true, true, tf, w);
      CloseKidInsAll(g, o, q + 1, r1.0, tf);
    }
  }
}
