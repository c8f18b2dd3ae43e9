/** Unfreezing and opening nodes (src/dagflow/core/node.py `unfreeze` and
    `open`) as functions on the marks of a net. */
module OpenWalk {
  import opened Base
  import opened Links
  import opened NodeFlags
  import opened TaintWalk

  /** No node that was open in `m0` is closed in `m1`. */
  predicate StaysOpen(net: Net, m0: Marks, m1: Marks)
    requires Fits(net, m0) && Fits(net, m1)
  {
    forall k :: 0 <= k < |net.nodes| && !m0.flags[k].closed ==> !m1.flags[k].closed
  }

  /** A taint walk opens and closes nothing and freezes nothing. */
  lemma TaintKeeps(g: Acyclic, n: nat, m: Marks)
    requires n < |g.net.nodes| && Fits(g.net, m)
    ensures var r := TaintNode(g, n, false, false, m);
            forall k :: 0 <= k < |g.net.nodes| ==> r.flags[k].closed == m.flags[k].closed && r.flags[k].frozen == m.flags[k].frozen
  {
    TaintNodeGrows(g, n, false, false, m);
  }

  /** `Node.unfreeze`: a node that is not frozen is left alone; otherwise it
      is unfrozen and, when a taint arrived while it was frozen, that taint
      is cleared and the node is tainted now. */
  function Unfrozen(g: Acyclic, n: nat, m: Marks): (r: Marks)
    requires n < |g.net.nodes| && Fits(g.net, m)
    ensures Fits(g.net, r) && StaysOpen(g.net, m, r) && StaysOpen(g.net, r, m)
    ensures !r.flags[n].frozen
    ensures !m.flags[n].frozen ==> r == m
    ensures m.flags[n].frozen && !m.flags[n].frozenTainted ==>
              r == m.(flags := m.flags[n := m.flags[n].(frozen := false)])
  {
    if !m.flags[n].frozen then m
    else
      var m1 := m.(flags := m.flags[n := m.flags[n].(frozen := false)]);
      if m1.flags[n].frozenTainted then
        var m2 := m1.(flags := m1.flags[n := m1.flags[n].(frozenTainted := false)]);
        TaintKeeps(g, n, m2);
        TaintNode(g, n, false, false, m2)
      else m1
  }

  /** `Node.open(open_children=oc, force_taint=ft)`: an open node is done
      unless the taint is forced.  Otherwise, when `oc`, every child node is
      opened first (a False from a child raises OpeningError); then the node
      is unfrozen, tainted and opened, and the result is `not closed`. */
  function OpenNode(g: Acyclic, n: nat, oc: bool, ft: bool, m: Marks): (r: (Marks, Result<bool>))
    requires n < |g.net.nodes| && Fits(g.net, m)
    ensures Fits(g.net, r.0) && StaysOpen(g.net, m, r.0)
    ensures !m.flags[n].closed && !ft ==> r == (m, Ok(true))
    ensures r.1.Ok? ==> !r.0.flags[n].closed
    decreases |g.net.nodes| - g.rank[n], 2, 0
  {
    if !m.flags[n].closed && !ft then (m, Ok(true))
    else
      var c := if oc then OpenKids(g, n, 0, ft, m) else (m, Pass);
      if c.1.Fail? then (c.0, Err(c.1.error))
      else
        var m3 := Reopened(g, n, c.0);
        (m3, Ok(!m3.flags[n].closed))
  }

  /** The end of `Node.open`: the node is unfrozen, tainted and opened; no
      open node is closed by it. */
  function Reopened(g: Acyclic, n: nat, m: Marks): (r: Marks)
    requires n < |g.net.nodes| && Fits(g.net, m)
    ensures Fits(g.net, r) && StaysOpen(g.net, m, r) && !r.flags[n].closed
  {
    var m1 := Unfrozen(g, n, m);
    TaintKeeps(g, n, m1);
    var m2 := TaintNode(g, n, false, false, m1);
    m2.(flags := m2.flags[n := m2.flags[n].(closed := false)])
  }

  /** The `open_children` loop over the positional outputs of `n` from the
      `j`-th on. */
  function OpenKids(g: Acyclic, n: nat, j: nat, ft: bool, m: Marks): (r: (Marks, Outcome))
    requires n < |g.net.nodes| && j <= |g.net.nodes[n].outs.posList| && Fits(g.net, m)
    ensures Fits(g.net, r.0) && StaysOpen(g.net, m, r.0)
    decreases |g.net.nodes| - g.rank[n], 1, |g.net.nodes[n].outs.posList| - j
  {
    if j == |g.net.nodes[n].outs.posList| then (m, Pass)
    else
      var r1 := OpenKidIns(g, OutAt(g.net, n, j), 0, ft, m);
      if r1.1.Fail? then r1 else OpenKids(g, n, j + 1, ft, r1.0)
  }

  /** The nodes of the child inputs of output `o`, from the `q`-th on, each
      opened with its own children. */
  function OpenKidIns(g: Acyclic, o: nat, q: nat, ft: bool, m: Marks): (r: (Marks, Outcome))
    requires o < |g.net.outputs| && q <= |g.net.outputs[o].childInputs| && Fits(g.net, m)
    ensures Fits(g.net, r.0) && StaysOpen(g.net, m, r.0)
    decreases |g.net.nodes| - g.rank[g.net.outputs[o].node], 0, |g.net.outputs[o].childInputs| - q
  {
    if q == |g.net.outputs[o].childInputs| then (m, Pass)
    else
      var c := g.net.inputs[g.net.outputs[o].childInputs[q]].node;
      var r1 := OpenNode(g, c, true, ft, m);
      if r1.1.Err? then (r1.0, Fail(r1.1.error))
      else if !r1.1.value then (r1.0, Fail(OpeningError))
      else OpenKidIns(g, o, q + 1, ft, r1.0)
  }

  /** `open` always returns True, so its OpeningError is never raised. */
  lemma {:induction false} OpenNodeOk(g: Acyclic, n: nat, oc: bool, ft: bool, m: Marks)
    requires n < |g.net.nodes| && Fits(g.net, m)
    ensures OpenNode(g, n, oc, ft, m).1 == Ok(true)
    decreases |g.net.nodes| - g.rank[n], 2, 0
  {
    if (m.flags[n].closed || ft) && oc {
      OpenKidsPass(g, n, 0, ft, m);
    }
  }

  lemma {:induction false} OpenKidsPass(g: Acyclic, n: nat, j: nat, ft: bool, m: Marks)
    requires n < |g.net.nodes| && j <= |g.net.nodes[n].outs.posList| && Fits(g.net, m)
    ensures OpenKids(g, n, j, ft, m).1 == Pass
    decreases |g.net.nodes| - g.rank[n], 1, |g.net.nodes[n].outs.posList| - j
  {
    if j < |g.net.nodes[n].outs.posList| {
      var o := OutAt(g.net, n, j);
      OpenKidInsPass(g, o, 0, ft, m);
      OpenKidsPass(g, n, j + 1, ft, OpenKidIns(g, o, 0, ft, m).0);
    }
  }

  lemma {:induction false} OpenKidInsPass(g: Acyclic, o: nat, q: nat, ft: bool, m: Marks)
    requires o < |g.net.outputs| && q <= |g.net.outputs[o].childInputs| && Fits(g.net, m)
    ensures OpenKidIns(g, o, q, ft, m).1 == Pass
    decreases |g.net.nodes| - g.rank[g.net.outputs[o].node], 0, |g.net.outputs[o].childInputs| - q
  {
    if q < |g.net.outputs[o].childInputs| {
      var c := g.net.inputs[g.net.outputs[o].childInputs[q]].node;
      OpenNodeOk(g, c, true, ft, m);
      OpenKidInsPass(g, o, q + 1, ft, OpenNode(g, c, true, ft, m).0);
    }
  }

  /** The nodes fed by the child inputs of output `o`, from the `q`-th on,
      are open. */
  predicate InputsOpen(net: Net, o: nat, q: nat, m: Marks)
    requires Wired(net) && o < |net.outputs| && Fits(net, m)
  {
    forall k :: q <= k < |net.outputs[o].childInputs| ==> !m.flags[net.inputs[net.outputs[o].childInputs[k]].node].closed
  }

  /** Every node fed by a positional output of `n`, from the `j`-th on, is
      open. */
  predicate KidsOpen(g: Acyclic, n: nat, j: nat, m: Marks)
    requires n < |g.net.nodes| && Fits(g.net, m)
  {
    forall k :: j <= k < |g.net.nodes[n].outs.posList| ==> InputsOpen(g.net, OutAt(g.net, n, k), 0, m)
  }

  /** Opening a closed node with its children leaves the node unfrozen and
      open, and every child node open. */
  lemma OpenOpensChildren(g: Acyclic, n: nat, ft: bool, m: Marks)
    requires n < |g.net.nodes| && Fits(g.net, m) && (m.flags[n].closed || ft)
    ensures var r := OpenNode(g, n, true, ft, m).0;
            !r.flags[n].closed && !r.flags[n].frozen && KidsOpen(g, n, 0, r)
  {
    OpenKidsPass(g, n, 0, ft, m);
    OpenKidsAll(g, n, 0, ft, m);
    var c := OpenKids(g, n, 0, ft, m);
    var m1 := Unfrozen(g, n, c.0);
    TaintKeeps(g, n, m1);
  }

  lemma {:induction false} OpenKidsAll(g: Acyclic, n: nat, j: nat, ft: bool, m: Marks)
    requires n < |g.net.nodes| && j <= |g.net.nodes[n].outs.posList| && Fits(g.net, m)
    ensures KidsOpen(g, n, j, OpenKids(g, n, j, ft, m).0)
    decreases |g.net.nodes[n].outs.posList| - j
  {
    if j < |g.net.nodes[n].outs.posList| {
      var o := OutAt(g.net, n, j);
      OpenKidInsPass(g, o, 0, ft, m);
      OpenKidInsAll(g, o, 0, ft, m);
      OpenKidsAll(g, n, j + 1, ft, OpenKidIns(g, o, 0, ft, m).0);
    }
  }

  lemma {:induction false} OpenKidInsAll(g: Acyclic, o: nat, q: nat, ft: bool, m: Marks)
    requires o < |g.net.outputs| && q <= |g.net.outputs[o].childInputs| && Fits(g.net, m)
    ensures InputsOpen(g.net, o, q, OpenKidIns(g, o, q, ft, m).0)
    decreases |g.net.outputs[o].childInputs| - q
  {
    if q < |g.net.outputs[o].childInputs| {
      var c := g.net.inputs[g.net.outputs[o].childInputs[q]].node;
      OpenNodeOk(g, c, true, ft, m);
      OpenKidInsAll(g, o, q + 1, ft, OpenNode(g, c, true, ft, m).0);
    }
  }
}
