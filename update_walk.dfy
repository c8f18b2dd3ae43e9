/** The type pass (src/dagflow/core/node.py `update_types`) on flag values.
    The node's own type function is not modelled: `tf[k]` is the outcome of
    node `k`'s `_type_function`. */
module UpdateWalk {
  import opened Base
  import opened Links
  import opened NodeFlags
  import opened Reach

  /** `Node.update_types(update_parents)`: a node whose types are not
      tainted is done; otherwise, when asked, every parent is updated first
      (an unconnected input raises ClosingError), then the node's type
      function runs, and the node's types are untainted and it needs a
      reallocation. */
  function UpdNode(g: Acyclic, n: nat, up: bool, tf: seq<Outcome>, f: seq<Flags>): (r: (seq<Flags>, Outcome))
    requires n < |g.net.nodes| && |f| == |g.net.nodes| && |tf| == |g.net.nodes|
    ensures |r.0| == |f|
    ensures !f[n].typesTainted ==> r == (f, Pass)
    ensures r.1.Pass? ==> !r.0[n].typesTainted
    ensures r.1.Pass? && f[n].typesTainted ==> r.0[n].needsReallocation
    decreases g.rank[n], 1, 0
  {
    if !f[n].typesTainted then (f, Pass)
    else
      var r1 := if up then UpdIns(g, n, 0, tf, f) else (f, Pass);
      if r1.1.Fail? then r1
      else if tf[n].Fail? then (r1.0, tf[n])
      else (r1.0[n := TypesUpdatedFlags(r1.0[n])], Pass)
  }

  /** The loop over `inputs.iter_all()` from the `j`-th input on. */
  function UpdIns(g: Acyclic, n: nat, j: nat, tf: seq<Outcome>, f: seq<Flags>): (r: (seq<Flags>, Outcome))
    requires n < |g.net.nodes| && j <= |InputsOf(g.net, n)| && |f| == |g.net.nodes| && |tf| == |g.net.nodes|
    ensures |r.0| == |f|
    decreases g.rank[n], 0, |InputsOf(g.net, n)| - j
  {
    if j == |InputsOf(g.net, n)| then (f, Pass)
    else
      var i := InputsOf(g.net, n)[j];
      match ParentNode(g.net, i)
      case None => (f, Fail(ClosingError))
      case Some(p) =>
        ParentBelow(g, i);
        var r1 := UpdNode(g, p, true, tf, f);
        if r1.1.Fail? then r1 else UpdIns(g, n, j + 1, tf, r1.0)
  }

  /** Every node whose flags differ is in `s` and holds what `update_types`
      makes of its old flags. */
  predicate UpdWithin(f0: seq<Flags>, f1: seq<Flags>, s: set<nat>)
  {
    |f1| == |f0| &&
    forall k :: 0 <= k < |f0| ==> f1[k] == f0[k] || (k in s && f1[k] == TypesUpdatedFlags(f0[k]))
  }

  lemma UpdWithinTrans(f0: seq<Flags>, f1: seq<Flags>, f2: seq<Flags>, s1: set<nat>, s2: set<nat>)
    requires UpdWithin(f0, f1, s1) && UpdWithin(f1, f2, s2)
    ensures UpdWithin(f0, f2, s1 + s2)
  {
  }

  /** The type pass changes only the node and its ancestors, each into what
      `update_types` makes of it. */
  lemma {:induction false} UpdNodeWithin(g: Acyclic, n: nat, up: bool, tf: seq<Outcome>, f: seq<Flags>)
    requires n < |g.net.nodes| && |f| == |g.net.nodes| && |tf| == |g.net.nodes|
    ensures UpdWithin(f, UpdNode(g, n, up, tf, f).0, {n} + Up(g, n, 0))
    decreases g.rank[n], 1, 0
  {
    if f[n].typesTainted {
      var r1 := if up then UpdIns(g, n, 0, tf, f) else (f, Pass);
      if up {
        UpdInsWithin(g, n, 0, tf, f);
      }
      if r1.1.Pass? && tf[n].Pass? {
        UpdWithinTrans(f, r1.0, UpdNode(g, n, up, tf, f).0, Up(g, n, 0), {n});
      }
    }
  }

  lemma {:induction false} UpdInsWithin(g: Acyclic, n: nat, j: nat, tf: seq<Outcome>, f: seq<Flags>)
    requires n < |g.net.nodes| && j <= |InputsOf(g.net, n)| && |f| == |g.net.nodes| && |tf| == |g.net.nodes|
    ensures UpdWithin(f, UpdIns(g, n, j, tf, f).0, Up(g, n, j))
    decreases g.rank[n], 0, |InputsOf(g.net, n)| - j
  {
    if j < |InputsOf(g.net, n)| {
      var i := InputsOf(g.net, n)[j];
      if ParentNode(g.net, i).Some? {
        var p := ParentNode(g.net, i).value;
        ParentBelow(g, i);
        var r1 := UpdNode(g, p, true, tf, f);
        UpdNodeWithin(g, p, true, tf, f);
        if r1.1.Pass? {
          UpdInsWithin(g, n, j + 1, tf, r1.0);
          UpdWithinTrans(f, r1.0, UpdIns(g, n, j, tf, f).0, {p} + Up(g, p, 0), Up(g, n, j + 1));
        }
      }
    }
  }

  /** The type pass raises only ClosingError or an error of some node's
      type function. */
  lemma {:induction false} UpdNodeError(g: Acyclic, n: nat, up: bool, tf: seq<Outcome>, f: seq<Flags>)
    requires n < |g.net.nodes| && |f| == |g.net.nodes| && |tf| == |g.net.nodes|
    ensures UpdNode(g, n, up, tf, f).1.Fail? ==>
              UpdNode(g, n, up, tf, f).1 == Fail(ClosingError) || UpdNode(g, n, up, tf, f).1 in tf
    decreases g.rank[n], 1, 0
  {
    if f[n].typesTainted && up {
      UpdInsError(g, n, 0, tf, f);
    }
  }

  lemma {:induction false} UpdInsError(g: Acyclic, n: nat, j: nat, tf: seq<Outcome>, f: seq<Flags>)
    requires n < |g.net.nodes| && j <= |InputsOf(g.net, n)| && |f| == |g.net.nodes| && |tf| == |g.net.nodes|
    ensures UpdIns(g, n, j, tf, f).1.Fail? ==>
              UpdIns(g, n, j, tf, f).1 == Fail(ClosingError) || UpdIns(g, n, j, tf, f).1 in tf
    decreases g.rank[n], 0, |InputsOf(g.net, n)| - j
  {
    if j < |InputsOf(g.net, n)| {
      var i := InputsOf(g.net, n)[j];
      if ParentNode(g.net, i).Some? {
        var p := ParentNode(g.net, i).value;
        ParentBelow(g, i);
        UpdNodeError(g, p, true, tf, f);
        UpdInsError(g, n, j + 1, tf, UpdNode(g, p, true, tf, f).0);
      }
    }
  }

  /** The `q`-th input of `n` is not connected. */
  predicate Unbound(net: Net, n: nat, q: nat)
    requires Wired(net) && n < |net.nodes|
  {
    q < |InputsOf(net, n)| && ParentNode(net, InputsOf(net, n)[q]).None?
  }

  /** With parents to update, a node with tainted types and an unconnected
      input never passes the type pass. */
  lemma UpdUnbound(g: Acyclic, n: nat, q: nat, tf: seq<Outcome>, f: seq<Flags>)
    requires n < |g.net.nodes| && |f| == |g.net.nodes| && |tf| == |g.net.nodes|
    requires f[n].typesTainted && Unbound(g.net, n, q)
    ensures UpdNode(g, n, true, tf, f).1.Fail?
  {
    UpdInsUnbound(g, n, 0, q, tf, f);
  }

  lemma {:induction false} UpdInsUnbound(g: Acyclic, n: nat, j: nat, q: nat, tf: seq<Outcome>, f: seq<Flags>)
    requires n < |g.net.nodes| && j <= q && |f| == |g.net.nodes| && |tf| == |g.net.nodes|
    requires Unbound(g.net, n, q)
    ensures UpdIns(g, n, j, tf, f).1.Fail?
    decreases |InputsOf(g.net, n)| - j
  {
    var i := InputsOf(g.net, n)[j];
    if j < q && ParentNode(g.net, i).Some? {
      var p := ParentNode(g.net, i).value;
      ParentBelow(g, i);
      var r1 := UpdNode(g, p, true, tf, f);
      if r1.1.Pass? {
        UpdInsUnbound(g, n, j + 1, q, tf, r1.0);
      }
    }
  }

  /** The parents of `n` from the `j`-th input on have untainted types. */
  predicate ParentsUpdated(net: Net, n: nat, j: nat, f: seq<Flags>)
    requires Wired(net) && n < |net.nodes| && |f| == |net.nodes|
  {
    forall q :: j <= q < |InputsOf(net, n)| && ParentNode(net, InputsOf(net, n)[q]).Some? ==>
      !f[ParentNode(net, InputsOf(net, n)[q]).value].typesTainted
  }

  /** After a successful type pass with parents, every parent of the node
      has untainted types. */
  lemma UpdParents(g: Acyclic, n: nat, tf: seq<Outcome>, f: seq<Flags>)
    requires n < |g.net.nodes| && |f| == |g.net.nodes| && |tf| == |g.net.nodes|
    requires f[n].typesTainted && UpdNode(g, n, true, tf, f).1.Pass?
    ensures ParentsUpdated(g.net, n, 0, UpdNode(g, n, true, tf, f).0)
  {
    var r1 := UpdIns(g, n, 0, tf, f);
    UpdInsParents(g, n, 0, tf, f);
    var r := UpdNode(g, n, true, tf, f).0;
    forall q | 0 <= q < |InputsOf(g.net, n)| && ParentNode(g.net, InputsOf(g.net, n)[q]).Some?
      ensures !r[ParentNode(g.net, InputsOf(g.net, n)[q]).value].typesTainted
    {
      var p := ParentNode(g.net, InputsOf(g.net, n)[q]).value;
      ParentBelow(g, InputsOf(g.net, n)[q]);
      assert r[p] == r1.0[p];
    }
  }

  lemma {:induction false} UpdInsParents(g: Acyclic, n: nat, j: nat, tf: seq<Outcome>, f: seq<Flags>)
    requires n < |g.net.nodes| && j <= |InputsOf(g.net, n)| && |f| == |g.net.nodes| && |tf| == |g.net.nodes|
    requires UpdIns(g, n, j, tf, f).1.Pass?
    ensures ParentsUpdated(g.net, n, j, UpdIns(g, n, j, tf, f).0)
    decreases |InputsOf(g.net, n)| - j
  {
    if j < |InputsOf(g.net, n)| && ParentNode(g.net, InputsOf(g.net, n)[j]).Some? {
      var i := InputsOf(g.net, n)[j];
      var p := ParentNode(g.net, i).value;
      ParentBelow(g, i);
      var r1 := UpdNode(g, p, true, tf, f);
      var r := UpdIns(g, n, j + 1, tf, r1.0);
      UpdInsParents(g, n, j + 1, tf, r1.0);
      UpdInsWithin(g, n, j + 1, tf, r1.0);
      assert r.0[p] == r1.0[p] || r.0[p] == TypesUpdatedFlags(r1.0[p]);
    }
  }
}
