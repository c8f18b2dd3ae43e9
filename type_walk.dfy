/** The type-taint walk (src/dagflow/core/node.py `taint_type`,
    dagflow/core/flags_descriptor.py `taint_type`,
    src/dagflow/core/output.py `taint_children_type`,
    src/dagflow/core/input.py `taint_type`) on flag values. */
module TypeWalk {
  import opened Base
  import opened Links
  import opened NodeFlags
  import opened Reach

  /** `Node.taint_type(force_taint)`: a closed node raises
      ClosedGraphError; a node whose types are already tainted stops the
      walk unless forced; otherwise its types and value are tainted, it is
      unfrozen, and the walk goes on through its positional outputs. */
  function TypeNode(g: Acyclic, n: nat, force: bool, f: seq<Flags>): (r: (seq<Flags>, Outcome))
    requires n < |g.net.nodes| && |f| == |g.net.nodes|
    ensures |r.0| == |f|
    decreases |g.net.nodes| - g.rank[n], 2, 0
  {
    if f[n].closed then (f, Fail(ClosedGraphError))
    else if f[n].typesTainted && !force then (f, Pass)
    else TypeKids(g, n, 0, force, f[n := TypeTaintFlags(f[n])])
  }

  /** The loop over the positional outputs of `n` from the `j`-th on,
      stopping at the first exception. */
  function TypeKids(g: Acyclic, n: nat, j: nat, force: bool, f: seq<Flags>): (r: (seq<Flags>, Outcome))
    requires n < |g.net.nodes| && j <= |g.net.nodes[n].outs.posList| && |f| == |g.net.nodes|
    ensures |r.0| == |f|
    decreases |g.net.nodes| - g.rank[n], 1, |g.net.nodes[n].outs.posList| - j
  {
    if j == |g.net.nodes[n].outs.posList| then (f, Pass)
    else
      var r1 := TypeInputs(g, OutAt(g.net, n, j), 0, force, f);
      if r1.1.Fail? then r1 else TypeKids(g, n, j + 1, force, r1.0)
  }

  /** `Output.taint_children_type` from the `q`-th child input on. */
  function TypeInputs(g: Acyclic, o: nat, q: nat, force: bool, f: seq<Flags>): (r: (seq<Flags>, Outcome))
    requires o < |g.net.outputs| && q <= |g.net.outputs[o].childInputs| && |f| == |g.net.nodes|
    ensures |r.0| == |f|
    decreases |g.net.nodes| - g.rank[g.net.outputs[o].node], 0, |g.net.outputs[o].childInputs| - q
  {
    if q == |g.net.outputs[o].childInputs| then (f, Pass)
    else
      var r1 := TypeNode(g, InputNode(g.net, g.net.outputs[o].childInputs[q]), force, f);
      if r1.1.Fail? then r1 else TypeInputs(g, o, q + 1, force, r1.0)
  }

  /** Every node whose flags differ is in `s`, was open, and holds what
      `taint_type` makes of its old flags. */
  predicate TypeWithin(f0: seq<Flags>, f1: seq<Flags>, s: set<nat>)
  {
    |f1| == |f0| &&
    forall k :: 0 <= k < |f0| ==>
      f1[k] == f0[k] || (k in s && !f0[k].closed && f1[k] == TypeTaintFlags(f0[k]))
  }

  /** Exactly the nodes of `s` hold what `taint_type` makes of their flags. */
  predicate TypeExactly(f0: seq<Flags>, f1: seq<Flags>, s: set<nat>)
  {
    |f1| == |f0| &&
    forall k :: 0 <= k < |f0| ==> f1[k] == if k in s then TypeTaintFlags(f0[k]) else f0[k]
  }

  lemma TypeWithinTrans(f0: seq<Flags>, f1: seq<Flags>, f2: seq<Flags>, s1: set<nat>, s2: set<nat>)
    requires TypeWithin(f0, f1, s1) && TypeWithin(f1, f2, s2)
    ensures TypeWithin(f0, f2, s1 + s2)
  {
  }

  lemma TypeExactlyTrans(f0: seq<Flags>, f1: seq<Flags>, f2: seq<Flags>, s1: set<nat>, s2: set<nat>)
    requires TypeExactly(f0, f1, s1) && TypeExactly(f1, f2, s2)
    ensures TypeExactly(f0, f2, s1 + s2)
  {
  }

  /** A type taint changes only open nodes below its start, each into what
      `taint_type` makes of it: closed nodes are never touched. */
  lemma {:induction false} TypeNodeWithin(g: Acyclic, n: nat, force: bool, f: seq<Flags>)
    requires n < |g.net.nodes| && |f| == |g.net.nodes|
    ensures TypeWithin(f, TypeNode(g, n, force, f).0, Down(g, n))
    decreases |g.net.nodes| - g.rank[n], 2, 0
  {
    if !f[n].closed && !(f[n].typesTainted && !force) {
      var f1 := f[n := TypeTaintFlags(f[n])];
      TypeKidsWithin(g, n, 0, force, f1);
      TypeWithinTrans(f, f1, TypeNode(g, n, force, f).0, {n}, DownKids(g, n, 0));
    }
  }

  lemma {:induction false} TypeKidsWithin(g: Acyclic, n: nat, j: nat, force: bool, f: seq<Flags>)
    requires n < |g.net.nodes| && j <= |g.net.nodes[n].outs.posList| && |f| == |g.net.nodes|
    ensures TypeWithin(f, TypeKids(g, n, j, force, f).0, DownKids(g, n, j))
    decreases |g.net.nodes| - g.rank[n], 1, |g.net.nodes[n].outs.posList| - j
  {
    if j < |g.net.nodes[n].outs.posList| {
      var o := OutAt(g.net, n, j);
      var r1 := TypeInputs(g, o, 0, force, f);
      TypeInputsWithin(g, o, 0, force, f);
      if r1.1.Pass? {
        TypeKidsWithin(g, n, j + 1, force, r1.0);
        TypeWithinTrans(f, r1.0, TypeKids(g, n, j, force, f).0, DownInputs(g, o, 0), DownKids(g, n, j + 1));
      }
    }
  }

  lemma {:induction false} TypeInputsWithin(g: Acyclic, o: nat, q: nat, force: bool, f: seq<Flags>)
    requires o < |g.net.outputs| && q <= |g.net.outputs[o].childInputs| && |f| == |g.net.nodes|
    ensures TypeWithin(f, TypeInputs(g, o, q, force, f).0, DownInputs(g, o, q))
    decreases |g.net.nodes| - g.rank[g.net.outputs[o].node], 0, |g.net.outputs[o].childInputs| - q
  {
    if q < |g.net.outputs[o].childInputs| {
      var c := InputNode(g.net, g.net.outputs[o].childInputs[q]);
      var r1 := TypeNode(g, c, force, f);
      TypeNodeWithin(g, c, force, f);
      if r1.1.Pass? {
        TypeInputsWithin(g, o, q + 1, force, r1.0);
        TypeWithinTrans(f, r1.0, TypeInputs(g, o, q, force, f).0, Down(g, c), DownInputs(g, o, q + 1));
      }
    }
  }

  /** The only exception a type taint raises is ClosedGraphError, and it
      raises it exactly when the walk meets a closed node. */
  lemma {:induction false} TypeNodeError(g: Acyclic, n: nat, force: bool, f: seq<Flags>)
    requires n < |g.net.nodes| && |f| == |g.net.nodes|
    ensures TypeNode(g, n, force, f).1.Fail? ==> TypeNode(g, n, force, f).1.error == ClosedGraphError
    decreases |g.net.nodes| - g.rank[n], 2, 0
  {
    if !f[n].closed && !(f[n].typesTainted && !force) {
      TypeKidsError(g, n, 0, force, f[n := TypeTaintFlags(f[n])]);
    }
  }

  lemma {:induction false} TypeKidsError(g: Acyclic, n: nat, j: nat, force: bool, f: seq<Flags>)
    requires n < |g.net.nodes| && j <= |g.net.nodes[n].outs.posList| && |f| == |g.net.nodes|
    ensures TypeKids(g, n, j, force, f).1.Fail? ==> TypeKids(g, n, j, force, f).1.error == ClosedGraphError
    decreases |g.net.nodes| - g.rank[n], 1, |g.net.nodes[n].outs.posList| - j
  {
    if j < |g.net.nodes[n].outs.posList| {
      var o := OutAt(g.net, n, j);
      TypeInputsError(g, o, 0, force, f);
      TypeKidsError(g, n, j + 1, force, TypeInputs(g, o, 0, force, f).0);
    }
  }

  lemma {:induction false} TypeInputsError(g: Acyclic, o: nat, q: nat, force: bool, f: seq<Flags>)
    requires o < |g.net.outputs| && q <= |g.net.outputs[o].childInputs| && |f| == |g.net.nodes|
    ensures TypeInputs(g, o, q, force, f).1.Fail? ==> TypeInputs(g, o, q, force, f).1.error == ClosedGraphError
    decreases |g.net.nodes| - g.rank[g.net.outputs[o].node], 0, |g.net.outputs[o].childInputs| - q
  {
    if q < |g.net.outputs[o].childInputs| {
      var c := InputNode(g.net, g.net.outputs[o].childInputs[q]);
      TypeNodeError(g, c, force, f);
      TypeInputsError(g, o, q + 1, force, TypeNode(g, c, force, f).0);
    }
  }

  /** No node below `n` is closed. */
  ghost predicate AllOpen(g: Acyclic, n: nat, f: seq<Flags>)
    requires n < |g.net.nodes| && |f| == |g.net.nodes|
  {
    forall k :: k in Down(g, n) ==> !f[k].closed
  }

  /** A forced type taint over open nodes succeeds and taints the types of
      exactly the start node and every node below it. */
  lemma {:induction false} TypeNodeForced(g: Acyclic, n: nat, f: seq<Flags>)
    requires n < |g.net.nodes| && |f| == |g.net.nodes| && AllOpen(g, n, f)
    ensures TypeNode(g, n, true, f).1 == Pass
    ensures TypeExactly(f, TypeNode(g, n, true, f).0, Down(g, n))
    decreases |g.net.nodes| - g.rank[n], 2, 0
  {
    var f1 := f[n := TypeTaintFlags(f[n])];
    TypeKidsForced(g, n, 0, f1);
    TypeExactlyTrans(f, f1, TypeNode(g, n, true, f).0, {n}, DownKids(g, n, 0));
  }

  lemma {:induction false} TypeKidsForced(g: Acyclic, n: nat, j: nat, f: seq<Flags>)
    requires n < |g.net.nodes| && j <= |g.net.nodes[n].outs.posList| && |f| == |g.net.nodes|
    requires forall k :: k in DownKids(g, n, j) ==> !f[k].closed
    ensures TypeKids(g, n, j, true, f).1 == Pass
    ensures TypeExactly(f, TypeKids(g, n, j, true, f).0, DownKids(g, n, j))
    decreases |g.net.nodes| - g.rank[n], 1, |g.net.nodes[n].outs.posList| - j
  {
    if j < |g.net.nodes[n].outs.posList| {
      var o := OutAt(g.net, n, j);
      var f1 := TypeInputs(g, o, 0, true, f).0;
      TypeInputsForced(g, o, 0, f);
      TypeKidsForced(g, n, j + 1, f1);
      TypeExactlyTrans(f, f1, TypeKids(g, n, j, true, f).0, DownInputs(g, o, 0), DownKids(g, n, j + 1));
    }
  }

  lemma {:induction false} TypeInputsForced(g: Acyclic, o: nat, q: nat, f: seq<Flags>)
    requires o < |g.net.outputs| && q <= |g.net.outputs[o].childInputs| && |f| == |g.net.nodes|
    requires forall k :: k in DownInputs(g, o, q) ==> !f[k].closed
    ensures TypeInputs(g, o, q, true, f).1 == Pass
    ensures TypeExactly(f, TypeInputs(g, o, q, true, f).0, DownInputs(g, o, q))
    decreases |g.net.nodes| - g.rank[g.net.outputs[o].node], 0, |g.net.outputs[o].childInputs| - q
  {
    if q < |g.net.outputs[o].childInputs| {
      var c := InputNode(g.net, g.net.outputs[o].childInputs[q]);
      var f1 := TypeNode(g, c, true, f).0;
      TypeNodeForced(g, c, f);
      TypeInputsForced(g, o, q + 1, f1);
      TypeExactlyTrans(f, f1, TypeInputs(g, o, q, true, f).0, Down(g, c), DownInputs(g, o, q + 1));
    }
  }

  /** After a successful type taint the start node's types are tainted, so
      a second unforced type taint changes nothing. */
  lemma TypeAgain(g: Acyclic, n: nat, force: bool, f: seq<Flags>)
    requires n < |g.net.nodes| && |f| == |g.net.nodes|
    requires TypeNode(g, n, force, f).1 == Pass
    ensures TypeNode(g, n, force, f).0[n].typesTainted
    ensures TypeNode(g, n, false, TypeNode(g, n, force, f).0) == (TypeNode(g, n, force, f).0, Pass)
  {
    if !(f[n].typesTainted && !force) {
      var f1 := f[n := TypeTaintFlags(f[n])];
      TypeKidsWithin(g, n, 0, force, f1);
      var r := TypeKids(g, n, 0, force, f1).0;
      assert r[n] == f1[n] || r[n] == TypeTaintFlags(f1[n]);
    }
  }
}
