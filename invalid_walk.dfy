/** The two invalidation walks of dagflow/core/flags_descriptor.py on flag
    values: the `invalid` setter of a node (`_invalidate`), which goes down
    through `invalidate_children` and the `invalid` setters of outputs and
    inputs, and `invalidate_parents`, which goes up. */
module InvalidWalk {
  import opened Base
  import opened Links
  import opened NodeFlags
  import opened Reach

  predicate Connected(net: Net, i: nat)
    requires i < |net.inputs|
  {
    net.inputs[i].parent.Some?
  }

  /** `Input.invalid` read on a connected input: the `invalid` flag of the
      node feeding it. */
  predicate ParentInvalid(net: Net, f: seq<Flags>, i: nat)
    requires Wired(net) && |f| == |net.nodes| && i < |net.inputs|
  {
    ParentNode(net, i).Some? && f[ParentNode(net, i).value].invalid
  }

  /** Inputs `ins[k..j]` are all connected to valid parents. */
  predicate Clean(net: Net, f: seq<Flags>, ins: seq<nat>, k: nat, j: nat)
    requires Wired(net) && |f| == |net.nodes| && k <= j <= |ins|
    requires forall l :: 0 <= l < |ins| ==> ins[l] < |net.inputs|
  {
    forall l :: k <= l < j ==> Connected(net, ins[l]) && !ParentInvalid(net, f, ins[l])
  }

  /** `any(parent.invalid for parent in parents.iter_all())` from the
      `k`-th input on: the scan stops at the first invalid parent, and
      reading `invalid` of an input without a parent raises AttributeError. */
  function AnyParentInvalid(net: Net, f: seq<Flags>, ins: seq<nat>, k: nat): (r: Result<bool>)
    requires Wired(net) && |f| == |net.nodes| && k <= |ins|
    requires forall l :: 0 <= l < |ins| ==> ins[l] < |net.inputs|
    ensures r.Err? ==> r.error == AttributeError
    ensures r == Ok(true) <==>
              exists j :: k <= j < |ins| && Clean(net, f, ins, k, j) && ParentInvalid(net, f, ins[j])
    ensures r.Err? <==>
              exists j :: k <= j < |ins| && Clean(net, f, ins, k, j) && !Connected(net, ins[j])
    decreases |ins| - k
  {
    if k == |ins| then Ok(false)
    else if !Connected(net, ins[k]) then
      assert Clean(net, f, ins, k, k);
      Err(AttributeError)
    else if ParentInvalid(net, f, ins[k]) then
      assert Clean(net, f, ins, k, k);
      Ok(true)
    else
      var r := AnyParentInvalid(net, f, ins, k + 1);
      assert forall j :: k < j <= |ins| ==> (Clean(net, f, ins, k, j) <==> Clean(net, f, ins, k + 1, j));
      r
  }

  /** `Node.invalid = v`, that is `FlagsDescriptor._invalidate(v)`:
      invalidating always goes through and down to the children;
      revalidating stops, without a change, at a node that still has an
      invalid parent. */
  function InvNode(g: Acyclic, n: nat, v: bool, f: seq<Flags>): (r: (seq<Flags>, Outcome))
    requires n < |g.net.nodes| && |f| == |g.net.nodes|
    ensures |r.0| == |f|
    decreases |g.net.nodes| - g.rank[n], 2, 0
  {
    if v then InvKids(g, n, 0, v, f[n := InvalidateFlags(f[n], true)])
    else
      match AnyParentInvalid(g.net, f, InputsOf(g.net, n), 0)
      case Err(e) => (f, Fail(e))
      case Ok(true) => (f, Pass)
      case Ok(false) => InvKids(g, n, 0, v, f[n := InvalidateFlags(f[n], false)])
  }

  /** `invalidate_children(v)` from the `j`-th positional output on: the
      `invalid` setter of each output, stopping at the first exception. */
  function InvKids(g: Acyclic, n: nat, j: nat, v: bool, f: seq<Flags>): (r: (seq<Flags>, Outcome))
    requires n < |g.net.nodes| && j <= |g.net.nodes[n].outs.posList| && |f| == |g.net.nodes|
    ensures |r.0| == |f|
    decreases |g.net.nodes| - g.rank[n], 1, |g.net.nodes[n].outs.posList| - j
  {
    if j == |g.net.nodes[n].outs.posList| then (f, Pass)
    else
      var r1 := InvInputs(g, OutAt(g.net, n, j), 0, v, f);
      if r1.1.Fail? then r1 else InvKids(g, n, j + 1, v, r1.0)
  }

  /** `Output.invalid = v` from the `q`-th child input on: each input sets
      `invalid` of its node. */
  function InvInputs(g: Acyclic, o: nat, q: nat, v: bool, f: seq<Flags>): (r: (seq<Flags>, Outcome))
    requires o < |g.net.outputs| && q <= |g.net.outputs[o].childInputs| && |f| == |g.net.nodes|
    ensures |r.0| == |f|
    decreases |g.net.nodes| - g.rank[g.net.outputs[o].node], 0, |g.net.outputs[o].childInputs| - q
  {
    if q == |g.net.outputs[o].childInputs| then (f, Pass)
    else
      var r1 := InvNode(g, InputNode(g.net, g.net.outputs[o].childInputs[q]), v, f);
      if r1.1.Fail? then r1 else InvInputs(g, o, q + 1, v, r1.0)
  }

  /** `invalidate_parents(v)` from the `j`-th input on (in `iter_all`
      order): each parent node is invalidated, then its own parents; an
      input without a parent raises AttributeError. */
  function InvUp(g: Acyclic, n: nat, j: nat, v: bool, f: seq<Flags>): (r: (seq<Flags>, Outcome))
    requires n < |g.net.nodes| && j <= |InputsOf(g.net, n)| && |f| == |g.net.nodes|
    ensures |r.0| == |f|
    decreases g.rank[n], |InputsOf(g.net, n)| - j
  {
    if j == |InputsOf(g.net, n)| then (f, Pass)
    else
      var i := InputsOf(g.net, n)[j];
      match ParentNode(g.net, i)
      case None => (f, Fail(AttributeError))
      case Some(p) =>
        ParentBelow(g, i);
        var r1 := InvUp(g, p, 0, v, f[p := InvalidateFlags(f[p], v)]);
        if r1.1.Fail? then r1 else InvUp(g, n, j + 1, v, r1.0)
  }

  /** Every node whose flags differ is in `s` and holds what `invalidate(v)`
      makes of its old flags. */
  predicate Within(f0: seq<Flags>, f1: seq<Flags>, s: set<nat>, v: bool)
  {
    |f1| == |f0| &&
    forall k :: 0 <= k < |f0| ==> f1[k] == f0[k] || (k in s && f1[k] == InvalidateFlags(f0[k], v))
  }

  /** Exactly the nodes of `s` hold what `invalidate(v)` makes of their old
      flags; the others are unchanged. */
  predicate Exactly(f0: seq<Flags>, f1: seq<Flags>, s: set<nat>, v: bool)
  {
    |f1| == |f0| &&
    forall k :: 0 <= k < |f0| ==> f1[k] == if k in s then InvalidateFlags(f0[k], v) else f0[k]
  }

  lemma WithinTrans(f0: seq<Flags>, f1: seq<Flags>, f2: seq<Flags>, s1: set<nat>, s2: set<nat>, v: bool)
    requires Within(f0, f1, s1, v) && Within(f1, f2, s2, v)
    ensures Within(f0, f2, s1 + s2, v)
  {
  }

  lemma WithinMore(f0: seq<Flags>, f1: seq<Flags>, s1: set<nat>, s2: set<nat>, v: bool)
    requires Within(f0, f1, s1, v) && s1 <= s2
    ensures Within(f0, f1, s2, v)
  {
  }

  lemma ExactlyTrans(f0: seq<Flags>, f1: seq<Flags>, f2: seq<Flags>, s1: set<nat>, s2: set<nat>, v: bool)
    requires Exactly(f0, f1, s1, v) && Exactly(f1, f2, s2, v)
    ensures Exactly(f0, f2, s1 + s2, v)
  {
  }

  /** A downward invalidation changes only nodes below its start, each into
      what `invalidate(v)` makes of it. */
  lemma {:induction false} InvNodeWithin(g: Acyclic, n: nat, v: bool, f: seq<Flags>)
    requires n < |g.net.nodes| && |f| == |g.net.nodes|
    ensures Within(f, InvNode(g, n, v, f).0, Down(g, n), v)
    decreases |g.net.nodes| - g.rank[n], 2, 0
  {
    if v || AnyParentInvalid(g.net, f, InputsOf(g.net, n), 0) == Ok(false) {
      var f1 := f[n := InvalidateFlags(f[n], v)];
      InvKidsWithin(g, n, 0, v, f1);
      WithinTrans(f, f1, InvNode(g, n, v, f).0, {n}, DownKids(g, n, 0), v);
    }
  }

  lemma {:induction false} InvKidsWithin(g: Acyclic, n: nat, j: nat, v: bool, f: seq<Flags>)
    requires n < |g.net.nodes| && j <= |g.net.nodes[n].outs.posList| && |f| == |g.net.nodes|
    ensures Within(f, InvKids(g, n, j, v, f).0, DownKids(g, n, j), v)
    decreases |g.net.nodes| - g.rank[n], 1, |g.net.nodes[n].outs.posList| - j
  {
    if j < |g.net.nodes[n].outs.posList| {
      var o := OutAt(g.net, n, j);
      var r1 := InvInputs(g, o, 0, v, f);
      InvInputsWithin(g, o, 0, v, f);
      if r1.1.Pass? {
        InvKidsWithin(g, n, j + 1, v, r1.0);
        WithinTrans(f, r1.0, InvKids(g, n, j, v, f).0, DownInputs(g, o, 0), DownKids(g, n, j + 1), v);
      }
    }
  }

  lemma {:induction false} InvInputsWithin(g: Acyclic, o: nat, q: nat, v: bool, f: seq<Flags>)
    requires o < |g.net.outputs| && q <= |g.net.outputs[o].childInputs| && |f| == |g.net.nodes|
    ensures Within(f, InvInputs(g, o, q, v, f).0, DownInputs(g, o, q), v)
    decreases |g.net.nodes| - g.rank[g.net.outputs[o].node], 0, |g.net.outputs[o].childInputs| - q
  {
    if q < |g.net.outputs[o].childInputs| {
      var c := InputNode(g.net, g.net.outputs[o].childInputs[q]);
      var r1 := InvNode(g, c, v, f);
      InvNodeWithin(g, c, v, f);
      if r1.1.Pass? {
        InvInputsWithin(g, o, q + 1, v, r1.0);
        WithinTrans(f, r1.0, InvInputs(g, o, q, v, f).0, Down(g, c), DownInputs(g, o, q + 1), v);
      }
    }
  }

  /** The only exception a downward invalidation raises is the
      AttributeError of an unconnected input. */
  lemma {:induction false} InvNodeError(g: Acyclic, n: nat, v: bool, f: seq<Flags>)
    requires n < |g.net.nodes| && |f| == |g.net.nodes|
    ensures InvNode(g, n, v, f).1.Fail? ==> InvNode(g, n, v, f).1.error == AttributeError
    decreases |g.net.nodes| - g.rank[n], 2, 0
  {
    if v || AnyParentInvalid(g.net, f, InputsOf(g.net, n), 0) == Ok(false) {
      InvKidsError(g, n, 0, v, f[n := InvalidateFlags(f[n], v)]);
    }
  }

  lemma {:induction false} InvKidsError(g: Acyclic, n: nat, j: nat, v: bool, f: seq<Flags>)
    requires n < |g.net.nodes| && j <= |g.net.nodes[n].outs.posList| && |f| == |g.net.nodes|
    ensures InvKids(g, n, j, v, f).1.Fail? ==> InvKids(g, n, j, v, f).1.error == AttributeError
    decreases |g.net.nodes| - g.rank[n], 1, |g.net.nodes[n].outs.posList| - j
  {
    if j < |g.net.nodes[n].outs.posList| {
      var o := OutAt(g.net, n, j);
      InvInputsError(g, o, 0, v, f);
      InvKidsError(g, n, j + 1, v, InvInputs(g, o, 0, v, f).0);
    }
  }

  lemma {:induction false} InvInputsError(g: Acyclic, o: nat, q: nat, v: bool, f: seq<Flags>)
    requires o < |g.net.outputs| && q <= |g.net.outputs[o].childInputs| && |f| == |g.net.nodes|
    ensures InvInputs(g, o, q, v, f).1.Fail? ==> InvInputs(g, o, q, v, f).1.error == AttributeError
    decreases |g.net.nodes| - g.rank[g.net.outputs[o].node], 0, |g.net.outputs[o].childInputs| - q
  {
    if q < |g.net.outputs[o].childInputs| {
      var c := InputNode(g.net, g.net.outputs[o].childInputs[q]);
      InvNodeError(g, c, v, f);
      InvInputsError(g, o, q + 1, v, InvNode(g, c, v, f).0);
    }
  }

  /** Setting `invalid = True` on a node always succeeds and invalidates
      exactly that node and every node below it. */
  lemma {:induction false} InvNodeAll(g: Acyclic, n: nat, f: seq<Flags>)
    requires n < |g.net.nodes| && |f| == |g.net.nodes|
    ensures InvNode(g, n, true, f).1 == Pass
    ensures Exactly(f, InvNode(g, n, true, f).0, Down(g, n), true)
    decreases |g.net.nodes| - g.rank[n], 2, 0
  {
    var f1 := f[n := InvalidateFlags(f[n], true)];
    InvKidsAll(g, n, 0, f1);
    ExactlyTrans(f, f1, InvNode(g, n, true, f).0, {n}, DownKids(g, n, 0), true);
  }

  lemma {:induction false} InvKidsAll(g: Acyclic, n: nat, j: nat, f: seq<Flags>)
    requires n < |g.net.nodes| && j <= |g.net.nodes[n].outs.posList| && |f| == |g.net.nodes|
    ensures InvKids(g, n, j, true, f).1 == Pass
    ensures Exactly(f, InvKids(g, n, j, true, f).0, DownKids(g, n, j), true)
    decreases |g.net.nodes| - g.rank[n], 1, |g.net.nodes[n].outs.posList| - j
  {
    if j < |g.net.nodes[n].outs.posList| {
      var o := OutAt(g.net, n, j);
      var f1 := InvInputs(g, o, 0, true, f).0;
      InvInputsAll(g, o, 0, f);
      InvKidsAll(g, n, j + 1, f1);
      ExactlyTrans(f, f1, InvKids(g, n, j, true, f).0, DownInputs(g, o, 0), DownKids(g, n, j + 1), true);
    }
  }

  lemma {:induction false} InvInputsAll(g: Acyclic, o: nat, q: nat, f: seq<Flags>)
    requires o < |g.net.outputs| && q <= |g.net.outputs[o].childInputs| && |f| == |g.net.nodes|
    ensures InvInputs(g, o, q, true, f).1 == Pass
    ensures Exactly(f, InvInputs(g, o, q, true, f).0, DownInputs(g, o, q), true)
    decreases |g.net.nodes| - g.rank[g.net.outputs[o].node], 0, |g.net.outputs[o].childInputs| - q
  {
    if q < |g.net.outputs[o].childInputs| {
      var c := InputNode(g.net, g.net.outputs[o].childInputs[q]);
      var f1 := InvNode(g, c, true, f).0;
      InvNodeAll(g, c, f);
      InvInputsAll(g, o, q + 1, f1);
      ExactlyTrans(f, f1, InvInputs(g, o, q, true, f).0, Down(g, c), DownInputs(g, o, q + 1), true);
    }
  }

  /** `invalidate_parents(v)` changes only nodes above its start, each
      into what `invalidate(v)` makes of it. */
  lemma {:induction false} InvUpWithin(g: Acyclic, n: nat, j: nat, v: bool, f: seq<Flags>)
    requires n < |g.net.nodes| && j <= |InputsOf(g.net, n)| && |f| == |g.net.nodes|
    ensures Within(f, InvUp(g, n, j, v, f).0, Up(g, n, j), v)
    decreases g.rank[n], |InputsOf(g.net, n)| - j
  {
    if j < |InputsOf(g.net, n)| {
      var i := InputsOf(g.net, n)[j];
      if ParentNode(g.net, i).Some? {
        var p := ParentNode(g.net, i).value;
        ParentBelow(g, i);
        var f0 := f[p := InvalidateFlags(f[p], v)];
        var r1 := InvUp(g, p, 0, v, f0);
        InvUpStep(g, n, j, v, f);
        UpStep(g, n, j);
        InvUpWithin(g, p, 0, v, f0);
        WithinTrans(f, f0, r1.0, {p}, Up(g, p, 0), v);
        if r1.1.Pass? {
          InvUpWithin(g, n, j + 1, v, r1.0);
          WithinTrans(f, r1.0, InvUp(g, n, j + 1, v, r1.0).0, {p} + Up(g, p, 0), Up(g, n, j + 1), v);
        } else {
          WithinMore(f, r1.0, {p} + Up(g, p, 0), Up(g, n, j), v);
        }
      }
    }
  }

  /** When `invalidate_parents(v)` succeeds it has invalidated every
      ancestor of its start and nothing else. */
  lemma {:induction false} InvUpAncestors(g: Acyclic, n: nat, j: nat, v: bool, f: seq<Flags>)
    requires n < |g.net.nodes| && j <= |InputsOf(g.net, n)| && |f| == |g.net.nodes|
    ensures InvUp(g, n, j, v, f).1.Pass? ==> Exactly(f, InvUp(g, n, j, v, f).0, Up(g, n, j), v)
    decreases g.rank[n], |InputsOf(g.net, n)| - j
  {
    if j < |InputsOf(g.net, n)| {
      var i := InputsOf(g.net, n)[j];
      if ParentNode(g.net, i).Some? {
        var p := ParentNode(g.net, i).value;
        ParentBelow(g, i);
        var f0 := f[p := InvalidateFlags(f[p], v)];
        var r1 := InvUp(g, p, 0, v, f0);
        if r1.1.Pass? {
          InvUpAncestors(g, p, 0, v, f0);
          ExactlyTrans(f, f0, r1.0, {p}, Up(g, p, 0), v);
          InvUpAncestors(g, n, j + 1, v, r1.0);
          if InvUp(g, n, j + 1, v, r1.0).1.Pass? {
            ExactlyTrans(f, r1.0, InvUp(g, n, j, v, f).0, {p} + Up(g, p, 0), Up(g, n, j + 1), v);
          }
        }
      }
    }
  }

  /** The only exception `invalidate_parents` raises is the AttributeError
      of an input without a parent. */
  lemma {:induction false} InvUpError(g: Acyclic, n: nat, j: nat, v: bool, f: seq<Flags>)
    requires n < |g.net.nodes| && j <= |InputsOf(g.net, n)| && |f| == |g.net.nodes|
    ensures InvUp(g, n, j, v, f).1.Fail? ==> InvUp(g, n, j, v, f).1.error == AttributeError
    decreases g.rank[n], |InputsOf(g.net, n)| - j
  {
    if j < |InputsOf(g.net, n)| {
      var i := InputsOf(g.net, n)[j];
      if ParentNode(g.net, i).Some? {
        var p := ParentNode(g.net, i).value;
        ParentBelow(g, i);
        var f0 := f[p := InvalidateFlags(f[p], v)];
        InvUpStep(g, n, j, v, f);
        InvUpError(g, p, 0, v, f0);
        InvUpError(g, n, j + 1, v, InvUp(g, p, 0, v, f0).0);
      }
    }
  }

  /** `invalidate_parents` at a connected input: the parent is invalidated
      with its own parents, and the loop goes on unless that raised. */
  lemma InvUpStep(g: Acyclic, n: nat, j: nat, v: bool, f: seq<Flags>)
    requires n < |g.net.nodes| && j < |InputsOf(g.net, n)| && |f| == |g.net.nodes|
    requires ParentNode(g.net, InputsOf(g.net, n)[j]).Some?
    ensures var p := ParentNode(g.net, InputsOf(g.net, n)[j]).value;
            p < |g.net.nodes| &&
            var r1 := InvUp(g, p, 0, v, f[p := InvalidateFlags(f[p], v)]);
            InvUp(g, n, j, v, f) == if r1.1.Fail? then r1 else InvUp(g, n, j + 1, v, r1.0)
  {
    ParentBelow(g, InputsOf(g.net, n)[j]);
  }

  /** Revalidating a node that still has an invalid parent (and no
      unconnected input before it) changes nothing and raises nothing. */
  lemma RevalidateBlocked(g: Acyclic, n: nat, f: seq<Flags>, j: nat)
    requires n < |g.net.nodes| && |f| == |g.net.nodes| && j < |InputsOf(g.net, n)|
    requires Clean(g.net, f, InputsOf(g.net, n), 0, j) && ParentInvalid(g.net, f, InputsOf(g.net, n)[j])
    ensures InvNode(g, n, false, f) == (f, Pass)
  {
    assert AnyParentInvalid(g.net, f, InputsOf(g.net, n), 0) == Ok(true);
  }
}
