/** What a `taint` walk does to the flags and call counts of a net
    (src/dagflow/core/node.py `taint`, dagflow/core/flags_descriptor.py
    `taint_children`, src/dagflow/core/output.py `taint_children`,
    src/dagflow/core/input.py `taint`), as functions on values.  The three
    functions follow the three nested loops of the source, and the methods
    of `Engine.Dag` are proved to leave exactly their values. */
module TaintWalk {
  import opened Links
  import opened NodeFlags

  /** The flags and the `n_calls` counter of every node. */
  datatype Marks = Marks(flags: seq<Flags>, calls: seq<nat>)

  predicate Fits(net: Net, m: Marks)
  {
    |m.flags| == |net.nodes| && |m.calls| == |net.nodes|
  }

  /** `_touch` of node `n`: one more call, and the node is no longer
      tainted.  The node function itself has no effect on the marks. */
  function Touched(m: Marks, n: nat): (r: Marks)
    requires n < |m.flags| && n < |m.calls|
    ensures |r.flags| == |m.flags| && |r.calls| == |m.calls|
    ensures r.calls[n] == m.calls[n] + 1 && !r.flags[n].tainted
  {
    Marks(m.flags[n := m.flags[n].(tainted := false)], m.calls[n := m.calls[n] + 1])
  }

  /** The marks `taint` puts on its own node before walking the children:
      tainted, then evaluated at once when the node is immediate or the
      computation is forced. */
  function Start(net: Net, n: nat, fc: bool, m: Marks): (r: Marks)
    requires n < |net.nodes| && Fits(net, m)
    ensures Fits(net, r)
  {
    var m1 := m.(flags := m.flags[n := m.flags[n].(tainted := true)]);
    if net.nodes[n].immediate || fc then Touched(m1, n) else m1
  }

  /** `taint` of node `n`: a tainted node stops the walk unless the taint is
      forced; a frozen node only records the taint; otherwise the node is
      tainted, evaluated at once when it is immediate or the computation is
      forced, and its children are tainted in turn. */
  function TaintNode(g: Acyclic, n: nat, force: bool, fc: bool, m: Marks): (r: Marks)
    requires n < |g.net.nodes| && Fits(g.net, m)
    ensures Fits(g.net, r)
    decreases |g.net.nodes| - g.rank[n], 2, 0
  {
    var f := m.flags[n];
    if f.tainted && !force then m
    else if f.frozen then m.(flags := m.flags[n := f.(frozenTainted := true)])
    else TaintKids(g, n, 0, force, fc, Start(g.net, n, fc, m))
  }

  /** `FlagsDescriptor.taint_children` of node `n`, from its `j`-th
      positional output on. */
  function TaintKids(g: Acyclic, n: nat, j: nat, force: bool, fc: bool, m: Marks): (r: Marks)
    requires n < |g.net.nodes| && j <= |g.net.nodes[n].outs.posList| && Fits(g.net, m)
    ensures Fits(g.net, r)
    decreases |g.net.nodes| - g.rank[n], 1, |g.net.nodes[n].outs.posList| - j
  {
    if j == |g.net.nodes[n].outs.posList| then m
    else TaintKids(g, n, j + 1, force, fc, TaintInputs(g, OutAt(g.net, n, j), 0, force, fc, m))
  }

  /** `Output.taint_children` of output `o`, from its `q`-th child input
      on: each input taints its node. */
  function TaintInputs(g: Acyclic, o: nat, q: nat, force: bool, fc: bool, m: Marks): (r: Marks)
    requires o < |g.net.outputs| && q <= |g.net.outputs[o].childInputs| && Fits(g.net, m)
    ensures Fits(g.net, r)
    decreases |g.net.nodes| - g.rank[g.net.outputs[o].node], 0, |g.net.outputs[o].childInputs| - q
  {
    if q == |g.net.outputs[o].childInputs| then m
    else
      var c := g.net.inputs[g.net.outputs[o].childInputs[q]].node;
      TaintInputs(g, o, q + 1, force, fc, TaintNode(g, c, force, fc, m))
  }

  /** What a walk may do to any node: call counts never drop, only
      `tainted` and `frozen_tainted` move, `frozen_tainted` is never
      cleared, a tainted node stays tainted unless it was evaluated, and a
      node is evaluated only when it is immediate or the computation is
      forced. */
  predicate Grows(net: Net, fc: bool, m0: Marks, m1: Marks)
    requires Fits(net, m0) && Fits(net, m1)
  {
    forall k :: 0 <= k < |net.nodes| ==>
      m0.calls[k] <= m1.calls[k] && SameButTaint(m0.flags[k], m1.flags[k]) &&
      (m0.flags[k].frozenTainted ==> m1.flags[k].frozenTainted) &&
      (m0.flags[k].tainted ==> m1.flags[k].tainted || m1.calls[k] > m0.calls[k]) &&
      (m1.calls[k] > m0.calls[k] ==> fc || net.nodes[k].immediate)
  }

  /** Nodes ranked no higher than `r`, other than `n`, keep their marks. */
  predicate KeptUpTo(net: Net, rank: seq<nat>, r: nat, n: int, m0: Marks, m1: Marks)
    requires |rank| == |net.nodes| && Fits(net, m0) && Fits(net, m1)
  {
    forall k :: 0 <= k < |net.nodes| && k != n && rank[k] <= r ==>
      m1.flags[k] == m0.flags[k] && m1.calls[k] == m0.calls[k]
  }

  lemma GrowsTrans(net: Net, fc: bool, m0: Marks, m1: Marks, m2: Marks)
    requires Fits(net, m0) && Fits(net, m1) && Fits(net, m2)
    requires Grows(net, fc, m0, m1) && Grows(net, fc, m1, m2)
    ensures Grows(net, fc, m0, m2)
  {
  }

  lemma StartGrows(net: Net, rank: seq<nat>, n: nat, fc: bool, m: Marks)
    requires |rank| == |net.nodes| && n < |net.nodes| && Fits(net, m)
    ensures Grows(net, fc, m, Start(net, n, fc, m))
    ensures KeptUpTo(net, rank, rank[n], n, m, Start(net, n, fc, m))
  {
  }

  /** A taint walk only raises marks, and only on `n` and on nodes ranked
      above it: everything upstream of the walk is left alone. */
  lemma {:induction false} TaintNodeGrows(g: Acyclic, n: nat, force: bool, fc: bool, m: Marks)
    requires n < |g.net.nodes| && Fits(g.net, m)
    ensures Grows(g.net, fc, m, TaintNode(g, n, force, fc, m))
    ensures KeptUpTo(g.net, g.rank, g.rank[n], n, m, TaintNode(g, n, force, fc, m))
    decreases |g.net.nodes| - g.rank[n], 2, 0
  {
    var f := m.flags[n];
    if !(f.tainted && !force) && !f.frozen {
      var m2 := Start(g.net, n, fc, m);
      StartGrows(g.net, g.rank, n, fc, m);
      TaintKidsGrows(g, n, 0, force, fc, m2);
      GrowsTrans(g.net, fc, m, m2, TaintNode(g, n, force, fc, m));
    }
  }

  lemma {:induction false} TaintKidsGrows(g: Acyclic, n: nat, j: nat, force: bool, fc: bool, m: Marks)
    requires n < |g.net.nodes| && j <= |g.net.nodes[n].outs.posList| && Fits(g.net, m)
    ensures Grows(g.net, fc, m, TaintKids(g, n, j, force, fc, m))
    ensures KeptUpTo(g.net, g.rank, g.rank[n], -1, m, TaintKids(g, n, j, force, fc, m))
    decreases |g.net.nodes| - g.rank[n], 1, |g.net.nodes[n].outs.posList| - j
  {
    if j < |g.net.nodes[n].outs.posList| {
      var m1 := TaintInputs(g, OutAt(g.net, n, j), 0, force, fc, m);
      TaintInputsGrows(g, OutAt(g.net, n, j), 0, force, fc, m);
      TaintKidsGrows(g, n, j + 1, force, fc, m1);
      GrowsTrans(g.net, fc, m, m1, TaintKids(g, n, j, force, fc, m));
    }
  }

  lemma {:induction false} TaintInputsGrows(g: Acyclic, o: nat, q: nat, force: bool, fc: bool, m: Marks)
    requires o < |g.net.outputs| && q <= |g.net.outputs[o].childInputs| && Fits(g.net, m)
    ensures Grows(g.net, fc, m, TaintInputs(g, o, q, force, fc, m))
    ensures KeptUpTo(g.net, g.rank, g.rank[g.net.outputs[o].node], -1, m, TaintInputs(g, o, q, force, fc, m))
    decreases |g.net.nodes| - g.rank[g.net.outputs[o].node], 0, |g.net.outputs[o].childInputs| - q
  {
    if q < |g.net.outputs[o].childInputs| {
      var c := g.net.inputs[g.net.outputs[o].childInputs[q]].node;
      var m1 := TaintNode(g, c, force, fc, m);
      TaintNodeGrows(g, c, force, fc, m);
      TaintInputsGrows(g, o, q + 1, force, fc, m1);
      GrowsTrans(g.net, fc, m, m1, TaintInputs(g, o, q, force, fc, m));
    }
  }

  /** A node the walk has reached: it is tainted, or it records the taint
      for its unfreeze, or it has been evaluated since `m0`. */
  predicate Marked(net: Net, k: nat, m0: Marks, m1: Marks)
    requires Fits(net, m0) && Fits(net, m1) && k < |net.nodes|
  {
    m1.flags[k].tainted || m1.flags[k].frozenTainted || m1.calls[k] > m0.calls[k]
  }

  /** When a `taint` goes past its node, the node ends with exactly the
      taint flag and call count the source gives it: tainted unless it was
      evaluated, and one more call when it was. */
  lemma TaintNodeSelf(g: Acyclic, n: nat, force: bool, fc: bool, m: Marks)
    requires n < |g.net.nodes| && Fits(g.net, m)
    requires !(m.flags[n].tainted && !force) && !m.flags[n].frozen
    ensures var ev := g.net.nodes[n].immediate || fc;
            var r := TaintNode(g, n, force, fc, m);
            r.flags[n] == m.flags[n].(tainted := !ev) &&
            r.calls[n] == m.calls[n] + (if ev then 1 else 0)
  {
    var m2 := Start(g.net, n, fc, m);
    TaintKidsGrows(g, n, 0, force, fc, m2);
  }

  /** The node a `taint` starts from is always marked: a tainted node is
      left as it is unless the taint is forced, and a frozen one only
      records the taint. */
  lemma TaintNodeMarked(g: Acyclic, n: nat, force: bool, fc: bool, m: Marks)
    requires n < |g.net.nodes| && Fits(g.net, m)
    ensures Marked(g.net, n, m, TaintNode(g, n, force, fc, m))
    ensures m.flags[n].tainted && !force ==> TaintNode(g, n, force, fc, m) == m
    ensures !(m.flags[n].tainted && !force) && m.flags[n].frozen ==>
              TaintNode(g, n, force, fc, m) == m.(flags := m.flags[n := m.flags[n].(frozenTainted := true)])
  {
    if !(m.flags[n].tainted && !force) && !m.flags[n].frozen {
      TaintNodeSelf(g, n, force, fc, m);
    }
  }

  /** Every child input's node from the `q`-th on is marked once output
      `o` has tainted its children. */
  lemma {:induction false} TaintInputsMarks(g: Acyclic, o: nat, q: nat, force: bool, fc: bool, m: Marks)
    requires o < |g.net.outputs| && q <= |g.net.outputs[o].childInputs| && Fits(g.net, m)
    ensures forall p :: q <= p < |g.net.outputs[o].childInputs| ==>
              Marked(g.net, InputNode(g.net, g.net.outputs[o].childInputs[p]), m, TaintInputs(g, o, q, force, fc, m))
    decreases |g.net.outputs[o].childInputs| - q
  {
    if q < |g.net.outputs[o].childInputs| {
      var c := InputNode(g.net, g.net.outputs[o].childInputs[q]);
      var m1 := TaintNode(g, c, force, fc, m);
      var res := TaintInputs(g, o, q, force, fc, m);
      TaintNodeMarked(g, c, force, fc, m);
      TaintNodeGrows(g, c, force, fc, m);
      TaintInputsGrows(g, o, q + 1, force, fc, m1);
      TaintInputsMarks(g, o, q + 1, force, fc, m1);
      forall p | q < p < |g.net.outputs[o].childInputs|
        ensures Marked(g.net, InputNode(g.net, g.net.outputs[o].childInputs[p]), m, res)
      {
        assert Marked(g.net, InputNode(g.net, g.net.outputs[o].childInputs[p]), m1, res);
      }
    }
  }

  /** Every child reached through the `j`-th positional output on is
      marked. */
  lemma {:induction false} TaintKidsMarks(g: Acyclic, n: nat, j: nat, force: bool, fc: bool, m: Marks)
    requires n < |g.net.nodes| && j <= |g.net.nodes[n].outs.posList| && Fits(g.net, m)
    ensures forall i, p :: j <= i < |g.net.nodes[n].outs.posList| &&
                           0 <= p < |g.net.outputs[OutAt(g.net, n, i)].childInputs| ==>
              Marked(g.net, InputNode(g.net, g.net.outputs[OutAt(g.net, n, i)].childInputs[p]), m,
                     TaintKids(g, n, j, force, fc, m))
    decreases |g.net.nodes[n].outs.posList| - j
  {
    if j < |g.net.nodes[n].outs.posList| {
      var o := OutAt(g.net, n, j);
      var m1 := TaintInputs(g, o, 0, force, fc, m);
      var res := TaintKids(g, n, j, force, fc, m);
      TaintInputsMarks(g, o, 0, force, fc, m);
      TaintInputsGrows(g, o, 0, force, fc, m);
      TaintKidsGrows(g, n, j + 1, force, fc, m1);
      TaintKidsMarks(g, n, j + 1, force, fc, m1);
      forall i, p | j <= i < |g.net.nodes[n].outs.posList| && 0 <= p < |g.net.outputs[OutAt(g.net, n, i)].childInputs|
        ensures Marked(g.net, InputNode(g.net, g.net.outputs[OutAt(g.net, n, i)].childInputs[p]), m, res)
      {
        if i > j {
          assert Marked(g.net, InputNode(g.net, g.net.outputs[OutAt(g.net, n, i)].childInputs[p]), m1, res);
        }
      }
    }
  }

  /** A `taint` that goes past its node marks the node of every input fed
      by one of its positional outputs. */
  lemma TaintMarksChildren(g: Acyclic, n: nat, force: bool, fc: bool, m: Marks)
    requires n < |g.net.nodes| && Fits(g.net, m)
    requires !(m.flags[n].tainted && !force) && !m.flags[n].frozen
    ensures forall i, p :: 0 <= i < |g.net.nodes[n].outs.posList| &&
                           0 <= p < |g.net.outputs[OutAt(g.net, n, i)].childInputs| ==>
              Marked(g.net, InputNode(g.net, g.net.outputs[OutAt(g.net, n, i)].childInputs[p]), m,
                     TaintNode(g, n, force, fc, m))
  {
    var m2 := Start(g.net, n, fc, m);
    StartGrows(g.net, g.rank, n, fc, m);
    TaintKidsMarks(g, n, 0, force, fc, m2);
  }

  /** Tainting a node again without force, right after a taint that did not
      evaluate it, changes nothing. */
  lemma TaintAgain(g: Acyclic, n: nat, force: bool, m: Marks)
    requires n < |g.net.nodes| && Fits(g.net, m)
    requires !m.flags[n].frozen && !g.net.nodes[n].immediate
    ensures var r := TaintNode(g, n, force, false, m);
            TaintNode(g, n, false, false, r) == r
  {
    TaintNodeMarked(g, n, force, false, m);
    if !(m.flags[n].tainted && !force) {
      TaintNodeSelf(g, n, force, false, m);
    }
  }
}
