/** The guarded one-node operations of src/dagflow/core/node.py on the
    marks of a net: `touch` and `freeze`, with the facts that tie them to
    `taint` and `unfreeze`. */
module NodeOps {
  import opened Base
  import opened Links
  import opened NodeFlags
  import opened TaintWalk
  import opened OpenWalk

  /** `Node.touch(force_computation)`: without force, an untainted node is
      left alone and a tainted node that is not closed raises
      UnclosedGraphError; otherwise the node is evaluated once (`_touch`). */
  function Touch(n: nat, fc: bool, m: Marks): (r: (Marks, Outcome))
    requires n < |m.flags| && n < |m.calls|
    ensures |r.0.flags| == |m.flags| && |r.0.calls| == |m.calls|
    ensures r.1.Fail? <==> !fc && m.flags[n].tainted && !m.flags[n].closed
    ensures r.1.Fail? ==> r.1.error == UnclosedGraphError && r.0 == m
    ensures !fc && !m.flags[n].tainted ==> r.0 == m
    ensures r.1.Pass? && (fc || m.flags[n].tainted) ==>
              r.0.calls == m.calls[n := m.calls[n] + 1] && !r.0.flags[n].tainted &&
              r.0.flags == m.flags[n := r.0.flags[n]] && r.0.flags[n].(tainted := m.flags[n].tainted) == m.flags[n]
  {
    if !fc && !m.flags[n].tainted then (m, Pass)
    else if !fc && !m.flags[n].closed then (m, Fail(UnclosedGraphError))
    else (Touched(m, n), Pass)
  }

  /** A touch that went through leaves nothing for a second unforced touch
      to do: the function runs at most once per taint. */
  lemma TouchAgain(n: nat, fc: bool, m: Marks)
    requires n < |m.flags| && n < |m.calls|
    requires Touch(n, fc, m).1.Pass?
    ensures Touch(n, false, Touch(n, fc, m).0) == (Touch(n, fc, m).0, Pass)
  {
    var r := Touch(n, fc, m).0;
    if fc || m.flags[n].tainted {
      assert !r.flags[n].tainted;
    } else {
      assert r == m;
    }
  }

  /** `Node.freeze`: a frozen node is left alone, a tainted one raises
      CriticalError, any other is frozen with no pending taint. */
  function Freeze(n: nat, m: Marks): (r: (Marks, Outcome))
    requires n < |m.flags|
    ensures |r.0.flags| == |m.flags| && r.0.calls == m.calls
    ensures m.flags[n].frozen ==> r == (m, Pass)
    ensures r.1.Fail? <==> !m.flags[n].frozen && m.flags[n].tainted
    ensures r.1.Fail? ==> r.1.error == CriticalError && r.0 == m
    ensures r.1.Pass? ==> r.0.flags[n].frozen && r.0.flags == m.flags[n := r.0.flags[n]]
  {
    if m.flags[n].frozen then (m, Pass)
    else if m.flags[n].tainted then (m, Fail(CriticalError))
    else (m.(flags := m.flags[n := FreezeFlags(m.flags[n])]), Pass)
  }

  /** Freezing twice is freezing once. */
  lemma FreezeIdempotent(n: nat, m: Marks)
    requires n < |m.flags| && Freeze(n, m).1.Pass?
    ensures Freeze(n, Freeze(n, m).0) == (Freeze(n, m).0, Pass)
  {
  }

  /** Freezing an untainted node and unfreezing it again restores its
      flags and its call count: nothing happened while it was frozen. */
  lemma UnfreezeUndoesFreeze(g: Acyclic, n: nat, m: Marks)
    requires n < |g.net.nodes| && Fits(g.net, m)
    requires !m.flags[n].frozen && !m.flags[n].frozenTainted && !m.flags[n].tainted
    ensures Freeze(n, m).1.Pass? && Unfrozen(g, n, Freeze(n, m).0) == m
  {
    var f := m.flags[n];
    assert FreezeFlags(f).(frozen := false) == f;
    assert m.flags[n := f] == m.flags;
  }

  /** Unfreezing a node that recorded a taint while frozen taints it now:
      it ends tainted, or evaluated once more when it is immediate, with no
      taint pending. */
  lemma UnfreezeRetaints(g: Acyclic, n: nat, m: Marks)
    requires n < |g.net.nodes| && Fits(g.net, m)
    requires m.flags[n].frozen && m.flags[n].frozenTainted
    ensures var r := Unfrozen(g, n, m);
            !r.flags[n].frozen && !r.flags[n].frozenTainted &&
            (r.flags[n].tainted || r.calls[n] == m.calls[n] + 1)
  {
    var m1 := m.(flags := m.flags[n := m.flags[n].(frozen := false)]);
    var m2 := m1.(flags := m1.flags[n := m1.flags[n].(frozenTainted := false)]);
    TaintNodeMarked(g, n, false, false, m2);
    if !m2.flags[n].tainted {
      TaintNodeSelf(g, n, false, false, m2);
    }
  }
}
