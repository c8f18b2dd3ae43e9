/** The node engine (src/dagflow/core/node.py,
    dagflow/core/flags_descriptor.py, src/dagflow/core/output.py,
    src/dagflow/core/input.py): one `Dag` object holds every node, input and
    output of a program together with their flags and data, and its methods
    update them in place as the source's objects do.  Ports refer to nodes
    and to each other by number; the ndarrays they hold live in the
    object's buffer store, so that two ports holding the same buffer number
    share one array.

    Every method is proved to leave exactly the state, and return exactly
    the result, of the walk function that specifies it; what the walks
    promise is proved about those functions. */
module Engine {
  import opened Base
  import opened DataDescriptor
  import opened Links
  import opened NodeFlags
  import opened TaintWalk
  import opened InvalidWalk
  import opened TypeWalk
  import opened UpdateWalk
  import opened Ports
  import opened AllocWalk
  import opened CloseWalk
  import opened OpenWalk
  import NodeOps
  import OutputData
  import Edges
  import IS = InputStrategy
  import W = Wiring
  import NB = NodeBuild
  import NBase = NodeBase
  import Formatters

  class Dag {
    var nodes: seq<NodeRec>
    var inputs: seq<InputRec>
    var outputs: seq<OutputRec>
    var flags: seq<Flags>
    var nCalls: seq<nat>
    var ins: seq<InState>
    var outs: seq<OutState>
    var bufs: seq<Array>
    /** `_input_nodes_callbacks` of every node: the nodes it touches. */
    var callbacks: seq<seq<nat>>
    /** What each node's `_type_function` does: pass or raise. */
    var typeFn: seq<Outcome>
    /** The input strategy of every node. */
    var strategies: seq<IS.Strategy>

    /** Every per-node and per-port field has one entry per node or port. */
    predicate Sound()
      reads this
    {
      |flags| == |nodes| && |nCalls| == |nodes| && |callbacks| == |nodes| && |typeFn| == |nodes| &&
      |ins| == |inputs| && |outs| == |outputs|
    }

    /** The link structure as a value. */
    function Structure(): Net
      reads this`nodes, this`inputs, this`outputs
    {
      Net(nodes, inputs, outputs)
    }

    /** The flags and call counters as a value. */
    function State(): Marks
      reads this`flags, this`nCalls
    {
      Marks(flags, nCalls)
    }

    /** The ports' data and the buffer store as a value. */
    function Stores(): Store
      reads this`ins, this`outs, this`bufs
    {
      Store(ins, outs, bufs)
    }

    /** Everything connecting and growing nodes reads and writes, as a
        value. */
    function Board(): W.Board
      reads this`nodes, this`inputs, this`outputs, this`ins, this`outs, this`flags, this`strategies
    {
      W.Board(Structure(), ins, outs, flags, strategies)
    }

    /** Everything the close pass reads and writes, as a value. */
    function Snapshot(): World
      reads this`flags, this`ins, this`outs, this`bufs, this`callbacks
    {
      World(flags, Stores(), callbacks)
    }

    /** `_touch`: the node function runs once (it has no effect on the
        engine state here), `n_calls` grows by one and the node is no longer
        tainted. */
    method TouchNow(n: nat)
      requires n < |flags| && n < |nCalls|
      modifies this`flags, this`nCalls
      ensures State() == Touched(old(State()), n)
    {
      nCalls := nCalls[n := nCalls[n] + 1];
      flags := flags[n := flags[n].(tainted := false)];
    }

    /** `Node.touch(force_computation)`. */
    method Touch(n: nat, fc: bool) returns (res: Outcome)
      requires n < |flags| && n < |nCalls|
      modifies this`flags, this`nCalls
      ensures (State(), res) == NodeOps.Touch(n, fc, old(State()))
    {
      if !fc {
        if !flags[n].tainted {
          return Pass;
        }
        if !flags[n].closed {
          return Fail(UnclosedGraphError);
        }
      }
      TouchNow(n);
      res := Pass;
    }

    /** `Node.freeze`. */
    method Freeze(n: nat) returns (res: Outcome)
      requires n < |flags|
      modifies this`flags
      ensures (State(), res) == NodeOps.Freeze(n, old(State()))
    {
      if flags[n].frozen {
        return Pass;
      }
      if flags[n].tainted {
        return Fail(CriticalError);
      }
      flags := flags[n := FreezeFlags(flags[n])];
      res := Pass;
    }

    /** `Node.unfreeze`: a taint that arrived while the node was frozen is
        applied now. */
    method Unfreeze(n: nat, ghost g: Acyclic)
      requires g.net == Structure() && n < |nodes| && Sound()
      modifies this`flags, this`nCalls
      ensures State() == Unfrozen(g, n, old(State())) && Sound()
    {
      if !flags[n].frozen {
        return;
      }
      flags := flags[n := flags[n].(frozen := false)];
      if flags[n].frozenTainted {
        flags := flags[n := flags[n].(frozenTainted := false)];
        Taint(n, false, false, g);
      }
    }

    /** `taint(force_taint, force_computation)`: a tainted node stops the
        walk unless forced; a frozen node only records the taint;
        otherwise the node is tainted, evaluated at once when immediate or
        forced, and every child reached through a positional output is
        tainted in turn. */
    method Taint(n: nat, force: bool, fc: bool, ghost g: Acyclic)
      requires g.net == Structure() && n < |nodes| && Fits(Structure(), State())
      modifies this`flags, this`nCalls
      ensures State() == TaintNode(g, n, force, fc, old(State()))
      decreases |nodes| - g.rank[n], 2
    {
      if flags[n].tainted && !force {
        return;
      }
      if flags[n].frozen {
        flags := flags[n := flags[n].(frozenTainted := true)];
        return;
      }
      flags := flags[n := flags[n].(tainted := true)];
      if nodes[n].immediate || fc {
        TouchNow(n);
      }
      TaintChildren(n, force, fc, g);
    }

    /** `FlagsDescriptor.taint_children`: each positional output taints the
        nodes it feeds. */
    method TaintChildren(n: nat, force: bool, fc: bool, ghost g: Acyclic)
      requires g.net == Structure() && n < |nodes| && Fits(Structure(), State())
      modifies this`flags, this`nCalls
      ensures State() == TaintKids(g, n, 0, force, fc, old(State()))
      decreases |nodes| - g.rank[n], 1
    {
      var j := 0;
      while j < |nodes[n].outs.posList|
        invariant j <= |nodes[n].outs.posList| && Fits(g.net, State())
        invariant TaintKids(g, n, 0, force, fc, old(State())) == TaintKids(g, n, j, force, fc, State())
      {
        var o := OutAt(Structure(), n, j);
        OutputTaintChildren(o, force, fc, g);
        j := j + 1;
      }
    }

    /** `Output.taint_children`: the node of every child input is tainted
        (`Input.taint`), in connection order. */
    method OutputTaintChildren(o: nat, force: bool, fc: bool, ghost g: Acyclic)
      requires g.net == Structure() && o < |outputs| && Fits(Structure(), State())
      modifies this`flags, this`nCalls
      ensures State() == TaintInputs(g, o, 0, force, fc, old(State()))
      decreases |nodes| - g.rank[outputs[o].node], 0
    {
      var q := 0;
      while q < |outputs[o].childInputs|
        invariant q <= |outputs[o].childInputs| && Fits(g.net, State())
        invariant TaintInputs(g, o, 0, force, fc, old(State())) == TaintInputs(g, o, q, force, fc, State())
      {
        Taint(inputs[outputs[o].childInputs[q]].node, force, fc, g);
        q := q + 1;
      }
    }

    /** The `invalid` setter of a node (`FlagsDescriptor._invalidate`). */
    method SetInvalid(n: nat, v: bool, ghost g: Acyclic) returns (res: Outcome)
      requires g.net == Structure() && n < |nodes| && |flags| == |nodes|
      modifies this`flags
      ensures (flags, res) == InvNode(g, n, v, old(flags))
      decreases |nodes| - g.rank[n], 2
    {
      if v {
        flags := flags[n := InvalidateFlags(flags[n], true)];
      } else {
        var any := AnyParentInvalid(Structure(), flags, InputsOf(Structure(), n), 0);
        if any.Err? {
          return Fail(any.error);
        }
        if any.value {
          return Pass;
        }
        flags := flags[n := InvalidateFlags(flags[n], false)];
      }
      res := InvalidateChildren(n, v, g);
    }

    /** `invalidate_children`: the `invalid` setter of each positional
        output. */
    method InvalidateChildren(n: nat, v: bool, ghost g: Acyclic) returns (res: Outcome)
      requires g.net == Structure() && n < |nodes| && |flags| == |nodes|
      modifies this`flags
      ensures (flags, res) == InvKids(g, n, 0, v, old(flags))
      decreases |nodes| - g.rank[n], 1
    {
      var j := 0;
      while j < |nodes[n].outs.posList|
        invariant j <= |nodes[n].outs.posList| && |flags| == |nodes|
        invariant InvKids(g, n, 0, v, old(flags)) == InvKids(g, n, j, v, flags)
      {
        res := OutputInvalid(OutAt(Structure(), n, j), v, g);
        if res.Fail? {
          return;
        }
        j := j + 1;
      }
      res := Pass;
    }

    /** The `invalid` setter of an output: each child input sets `invalid`
        of its node. */
    method OutputInvalid(o: nat, v: bool, ghost g: Acyclic) returns (res: Outcome)
      requires g.net == Structure() && o < |outputs| && |flags| == |nodes|
      modifies this`flags
      ensures (flags, res) == InvInputs(g, o, 0, v, old(flags))
      decreases |nodes| - g.rank[outputs[o].node], 0
    {
      var q := 0;
      while q < |outputs[o].childInputs|
        invariant q <= |outputs[o].childInputs| && |flags| == |nodes|
        invariant InvInputs(g, o, 0, v, old(flags)) == InvInputs(g, o, q, v, flags)
      {
        res := SetInvalid(InputNode(Structure(), outputs[o].childInputs[q]), v, g);
        if res.Fail? {
          return;
        }
        q := q + 1;
      }
      res := Pass;
    }

    /** `invalidate_parents(v)`: every parent node is invalidated, then its
        own parents. */
    method InvalidateParents(n: nat, v: bool, ghost g: Acyclic) returns (res: Outcome)
      requires g.net == Structure() && n < |nodes| && |flags| == |nodes|
      modifies this`flags
      ensures (flags, res) == InvUp(g, n, 0, v, old(flags))
      decreases g.rank[n]
    {
      var parents := InputsOf(Structure(), n);
      var j := 0;
      while j < |parents|
        invariant j <= |parents| && |flags| == |nodes|
        invariant InvUp(g, n, 0, v, old(flags)) == InvUp(g, n, j, v, flags)
      {
        var p := ParentNode(Structure(), parents[j]);
        if p.None? {
          return Fail(AttributeError);
        }
        ParentBelow(g, parents[j]);
        flags := flags[p.value := InvalidateFlags(flags[p.value], v)];
        res := InvalidateParents(p.value, v, g);
        if res.Fail? {
          return;
        }
        j := j + 1;
      }
      res := Pass;
    }

    /** `Node.taint_type(force_taint)`. */
    method TaintType(n: nat, force: bool, ghost g: Acyclic) returns (res: Outcome)
      requires g.net == Structure() && n < |nodes| && |flags| == |nodes|
      modifies this`flags
      ensures (flags, res) == TypeNode(g, n, force, old(flags))
      decreases |nodes| - g.rank[n], 2
    {
      if flags[n].closed {
        return Fail(ClosedGraphError);
      }
      if flags[n].typesTainted && !force {
        return Pass;
      }
      flags := flags[n := TypeTaintFlags(flags[n])];
      res := TaintChildrenType(n, force, g);
    }

    /** The loop of `FlagsDescriptor.taint_type` over the positional
        outputs. */
    method TaintChildrenType(n: nat, force: bool, ghost g: Acyclic) returns (res: Outcome)
      requires g.net == Structure() && n < |nodes| && |flags| == |nodes|
      modifies this`flags
      ensures (flags, res) == TypeKids(g, n, 0, force, old(flags))
      decreases |nodes| - g.rank[n], 1
    {
      var j := 0;
      while j < |nodes[n].outs.posList|
        invariant j <= |nodes[n].outs.posList| && |flags| == |nodes|
        invariant TypeKids(g, n, 0, force, old(flags)) == TypeKids(g, n, j, force, flags)
      {
        res := OutputTaintChildrenType(OutAt(Structure(), n, j), force, g);
        if res.Fail? {
          return;
        }
        j := j + 1;
      }
      res := Pass;
    }

    /** `Output.taint_children_type`: each child input taints the types of
        its node. */
    method OutputTaintChildrenType(o: nat, force: bool, ghost g: Acyclic) returns (res: Outcome)
      requires g.net == Structure() && o < |outputs| && |flags| == |nodes|
      modifies this`flags
      ensures (flags, res) == TypeInputs(g, o, 0, force, old(flags))
      decreases |nodes| - g.rank[outputs[o].node], 0
    {
      var q := 0;
      while q < |outputs[o].childInputs|
        invariant q <= |outputs[o].childInputs| && |flags| == |nodes|
        invariant TypeInputs(g, o, 0, force, old(flags)) == TypeInputs(g, o, q, force, flags)
      {
        res := TaintType(InputNode(Structure(), outputs[o].childInputs[q]), force, g);
        if res.Fail? {
          return;
        }
        q := q + 1;
      }
      res := Pass;
    }

    /** `Node.update_types(update_parents)`. */
    method UpdateTypes(n: nat, up: bool, ghost g: Acyclic) returns (res: Outcome)
      requires g.net == Structure() && n < |nodes| && Sound()
      modifies this`flags
      ensures (flags, res) == UpdNode(g, n, up, typeFn, old(flags))
      decreases g.rank[n]
    {
      if !flags[n].typesTainted {
        return Pass;
      }
      if up {
        var parents := InputsOf(Structure(), n);
        var j := 0;
        while j < |parents|
          invariant j <= |parents| && Sound()
          invariant UpdIns(g, n, 0, typeFn, old(flags)) == UpdIns(g, n, j, typeFn, flags)
        {
          var p := ParentNode(Structure(), parents[j]);
          if p.None? {
            return Fail(ClosingError);
          }
          ParentBelow(g, parents[j]);
          res := UpdateTypes(p.value, true, g);
          if res.Fail? {
            return;
          }
          j := j + 1;
        }
      }
      if typeFn[n].Fail? {
        return typeFn[n];
      }
      flags := flags[n := TypesUpdatedFlags(flags[n])];
      res := Pass;
    }

    /** `inputs.allocate()`: each input of `n` allocates in turn; the
        result tells whether some data was reassigned. */
    method AllocateInputs(n: nat, ghost g: Acyclic) returns (res: Result<bool>)
      requires g.net == Structure() && n < |nodes| && Sound()
      modifies this`ins, this`bufs
      ensures (Stores(), res) == AllocIns(g, n, 0, false, old(Stores())) && Sound()
    {
      var all := InputsOf(Structure(), n);
      ghost var st0 := Stores();
      var acc := false;
      var j := 0;
      while j < |all|
        invariant j <= |all| && Sound() && all == InputsOf(g.net, n)
        invariant AllocIns(g, n, 0, false, st0) == AllocIns(g, n, j, acc, Stores())
      {
        var i := all[j];
        ghost var st := Stores();
        var a := InAlloc(ins[i], bufs, false);
        AllocInsStep(g, n, j, acc, st);
        if a.Err? {
          return Err(a.error);
        }
        ins := ins[i := a.value.0];
        bufs := a.value.1;
        acc := acc || a.value.2;
        j := j + 1;
      }
      res := Ok(acc);
    }

    /** `outputs.allocate()`: each output of `n` allocates in turn, into its
        allocating input's buffer when it has one. */
    method AllocateOutputs(n: nat, ghost g: Acyclic) returns (res: Result<bool>)
      requires g.net == Structure() && n < |nodes| && Sound()
      modifies this`ins, this`outs, this`bufs
      ensures (Stores(), res) == AllocOuts(g, n, 0, false, flags[n].closed, old(Stores())) && Sound()
    {
      var all := OutputsOf(Structure(), n);
      var closed := flags[n].closed;
      var acc := false;
      var j := 0;
      while j < |all|
        invariant j <= |all| && Sound()
        invariant AllocOuts(g, n, 0, false, closed, old(Stores())) == AllocOuts(g, n, j, acc, closed, Stores())
      {
        var r := AllocateOutput(n, j, acc, closed, g);
        if r.Err? {
          return r;
        }
        acc := r.value;
        j := j + 1;
      }
      res := Ok(acc);
    }

    /** One turn of `outputs.allocate()`: the `j`-th output of `n` allocates
        and what it leaves is installed; an error changes nothing. */
    method AllocateOutput(n: nat, j: nat, acc: bool, closed: bool, ghost g: Acyclic) returns (res: Result<bool>)
      requires g.net == Structure() && n < |nodes| && Sound() && j < |OutputsOf(Structure(), n)|
      modifies this`ins, this`outs, this`bufs
      ensures Sound()
      ensures res.Err? ==> Stores() == old(Stores()) && AllocOuts(g, n, j, acc, closed, Stores()) == (Stores(), res)
      ensures res.Ok? ==> AllocOuts(g, n, j, acc, closed, old(Stores())) == AllocOuts(g, n, j + 1, res.value, closed, Stores())
    {
      var o := OutputsOf(Structure(), n)[j];
      ghost var st := Stores();
      var a := OutAlloc(outs[o], closed, AinOf(Structure(), o, Stores()), bufs);
      AllocOutsStep(g, n, j, acc, closed, st);
      if a.Err? {
        return Err(a.error);
      }
      Install(o, a.value, g);
      res := Ok(acc || a.value.reassigned);
    }

    /** What `Output.allocate` leaves in place: the output's data, and the
        allocating input's buffer when it was allocated too. */
    method Install(o: nat, a: Alloc, ghost g: Acyclic)
      requires g.net == Structure() && o < |outputs| && Sound()
      modifies this`ins, this`outs, this`bufs
      ensures Stores() == AllocWalk.Install(g.net, o, a, old(Stores())) && Sound()
    {
      var ai := outputs[o].allocatingInput;
      if ai.Some? && a.ain.Some? {
        ins := ins[ai.value := a.ain.value];
      }
      outs := outs[o := a.out];
      bufs := a.bufs;
    }

    /** `_post_allocate`: the callback list is emptied and refilled with the
        parent node of every input, each once. */
    method PostAllocate(n: nat, ghost g: Acyclic) returns (res: Outcome)
      requires g.net == Structure() && n < |nodes| && Sound()
      modifies this`callbacks
      ensures Sound() && (callbacks[n], res) == PostAlloc(g, n, 0, [])
      ensures callbacks == old(callbacks)[n := callbacks[n]]
    {
      callbacks := callbacks[n := []];
      var all := InputsOf(Structure(), n);
      var j := 0;
      while j < |all|
        invariant j <= |all| && Sound() && callbacks == old(callbacks)[n := callbacks[n]]
        invariant PostAlloc(g, n, 0, []) == PostAlloc(g, n, j, callbacks[n])
      {
        var p := ParentNode(Structure(), all[j]);
        if p.None? {
          return Fail(AttributeError);
        }
        if p.value !in callbacks[n] {
          callbacks := callbacks[n := callbacks[n] + [p.value]];
        }
        j := j + 1;
      }
      res := Pass;
    }

    /** `Node.allocate(allocate_parents)`. */
    method Allocate(n: nat, up: bool, ghost g: Acyclic) returns (res: Result<bool>)
      requires g.net == Structure() && n < |nodes| && Sound()
      modifies this`flags, this`ins, this`outs, this`bufs, this`callbacks
      ensures (Snapshot(), res) == AllocNode(g, n, up, old(Snapshot())) && Sound()
      decreases g.rank[n]
    {
      if flags[n].isAllocated && !flags[n].needsReallocation {
        return Ok(true);
      }
      if up {
        var parents := InputsOf(Structure(), n);
        var j := 0;
        while j < |parents|
          invariant j <= |parents| && Sound()
          invariant AllocParents(g, n, 0, old(Snapshot())) == AllocParents(g, n, j, Snapshot())
        {
          var p := ParentNode(Structure(), parents[j]);
          if p.None? {
            return Err(ClosingError);
          }
          ParentBelow(g, parents[j]);
          res := Allocate(p.value, true, g);
          if res != Ok(true) {
            return;
          }
          j := j + 1;
        }
      }
      res := LocalAllocate(n, g);
    }

    /** The node's own part of `allocate`, once its parents are done:
        inputs, outputs, then `_post_allocate` when needed. */
    method LocalAllocate(n: nat, ghost g: Acyclic) returns (res: Result<bool>)
      requires g.net == Structure() && n < |nodes| && Sound()
      modifies this`flags, this`ins, this`outs, this`bufs, this`callbacks
      ensures (Snapshot(), res) == LocalAlloc(g, n, old(Snapshot())) && Sound()
    {
      var ri := AllocateInputs(n, g);
      if ri.Err? {
        return Err(ri.error);
      }
      var ro := AllocateOutputs(n, g);
      if ro.Err? {
        return Err(ro.error);
      }
      if ri.value || ro.value || flags[n].needsPostAllocate {
        var rp := PostAllocate(n, g);
        if rp.Fail? {
          return Err(rp.error);
        }
      }
      flags := flags[n := AllocatedFlags(flags[n])];
      res := Ok(true);
    }

    /** `Node.close(close_parents, strict, close_children)`: a closed node
        is done and an invalid one raises; otherwise the type and allocation
        passes run (a ClosingError of either is swallowed unless `strict`)
        and the close goes on in `CloseRest`. */
    method Close(n: nat, cp: bool, strict: bool, cc: bool, ghost g: Acyclic) returns (res: Result<bool>)
      requires g.net == Structure() && n < |nodes| && Sound()
      modifies this`flags, this`ins, this`outs, this`bufs, this`callbacks
      ensures (Snapshot(), res) == CloseNode(g, n, cp, strict, cc, typeFn, old(Snapshot())) && Sound()
      decreases if cc then 1 else 0, if cc then |nodes| - g.rank[n] else g.rank[n], 4
    {
      if flags[n].closed {
        return Ok(true);
      }
      if flags[n].invalid {
        return Err(ClosingError);
      }
      var u := UpdateTypes(n, cp, g);
      if u.Fail? && (strict || u.error != ClosingError) {
        return Err(u.error);
      }
      res := Allocate(n, cp, g);
      if res.Err? && (strict || res.error != ClosingError) {
        return;
      }
      assert Passes(g, n, cp, strict, typeFn, old(Snapshot())) == (Snapshot(), Ok(true));
      res := CloseRest(n, cp, strict, cc, g);
    }

    /** The rest of `close` after the two passes: the parents are closed
        when `cp`, the node is closed exactly when it is allocated, a strict
        close that left it open raises, and when `cc` the children are
        closed. */
    method CloseRest(n: nat, cp: bool, strict: bool, cc: bool, ghost g: Acyclic) returns (res: Result<bool>)
      requires g.net == Structure() && n < |nodes| && Sound() && !flags[n].closed
      modifies this`flags, this`ins, this`outs, this`bufs, this`callbacks
      ensures (Snapshot(), res) == CloseWalk.CloseRest(g, n, cp, strict, cc, typeFn, old(Snapshot())) && Sound()
      decreases if cc then 1 else 0, if cc then |nodes| - g.rank[n] else g.rank[n], 3
    {
      if cp {
        res := CloseParentNodes(n, g);
        if res != Ok(true) {
          return;
        }
      }
      res := Seal(n, strict, cc, g);
    }

    /** `closed = allocated`, then a strict close that left the node open
        raises ClosingError, and when `cc` every child node is closed; the
        result is the node's `closed` flag. */
    method Seal(n: nat, strict: bool, cc: bool, ghost g: Acyclic) returns (res: Result<bool>)
      requires g.net == Structure() && n < |nodes| && Sound()
      modifies this`flags, this`ins, this`outs, this`bufs, this`callbacks
      ensures (Snapshot(), res) == CloseSealed(g, n, strict, cc, typeFn, CloseWalk.Seal(n, old(Snapshot()))) && Sound()
      decreases if cc then 1 else 0, if cc then |nodes| - g.rank[n] else g.rank[n], 2
    {
      flags := flags[n := flags[n].(closed := flags[n].isAllocated)];
      if strict && !flags[n].closed {
        return Err(ClosingError);
      }
      if cc {
        var c := CloseChildren(n, strict, g);
        if c.Fail? {
          return Err(c.error);
        }
      }
      res := Ok(flags[n].closed);
    }

    /** The parents loop of `close`: every parent node is closed strictly
        with its own parents. */
    method CloseParentNodes(n: nat, ghost g: Acyclic) returns (res: Result<bool>)
      requires g.net == Structure() && n < |nodes| && Sound()
      modifies this`flags, this`ins, this`outs, this`bufs, this`callbacks
      ensures (Snapshot(), res) == CloseParents(g, n, 0, typeFn, old(Snapshot())) && Sound()
      decreases 0, g.rank[n], 1
    {
      var parents := InputsOf(Structure(), n);
      var j := 0;
      while j < |parents|
        invariant j <= |parents| && Sound()
        invariant CloseParents(g, n, 0, typeFn, old(Snapshot())) == CloseParents(g, n, j, typeFn, Snapshot())
      {
        var p := ParentNode(Structure(), parents[j]);
        if p.None? {
          return Err(AttributeError);
        }
        ParentBelow(g, parents[j]);
        res := Close(p.value, true, true, false, g);
        if res != Ok(true) {
          return;
        }
        j := j + 1;
      }
      res := Ok(true);
    }

    /** The `close_children` loop of `close` over the positional outputs. */
    method CloseChildren(n: nat, strict: bool, ghost g: Acyclic) returns (res: Outcome)
      requires g.net == Structure() && n < |nodes| && Sound()
      modifies this`flags, this`ins, this`outs, this`bufs, this`callbacks
      ensures (Snapshot(), res) == CloseKids(g, n, 0, strict, typeFn, old(Snapshot())) && Sound()
      decreases 1, |nodes| - g.rank[n], 1
    {
      var j := 0;
      while j < |nodes[n].outs.posList|
        invariant j <= |nodes[n].outs.posList| && Sound()
        invariant CloseKids(g, n, 0, strict, typeFn, old(Snapshot())) == CloseKids(g, n, j, strict, typeFn, Snapshot())
      {
        res := CloseChildInputs(OutAt(Structure(), n, j), strict, g);
        if res.Fail? {
          return;
        }
        j := j + 1;
      }
      res := Pass;
    }

    /** The inner loop of `close_children`: the node of every child input of
        output `o` is closed with its own children; a False is ignored. */
    method CloseChildInputs(o: nat, strict: bool, ghost g: Acyclic) returns (res: Outcome)
      requires g.net == Structure() && o < |outputs| && Sound()
      modifies this`flags, this`ins, this`outs, this`bufs, this`callbacks
      ensures (Snapshot(), res) == CloseKidIns(g, o, 0, strict, typeFn, old(Snapshot())) && Sound()
      decreases 1, |nodes| - g.rank[outputs[o].node], 0
    {
      var q := 0;
      while q < |outputs[o].childInputs|
        invariant q <= |outputs[o].childInputs| && Sound()
        invariant CloseKidIns(g, o, 0, strict, typeFn, old(Snapshot())) == CloseKidIns(g, o, q, strict, typeFn, Snapshot())
      {
        var r := Close(inputs[outputs[o].childInputs[q]].node, true, strict, true, g);
        if r.Err? {
          return Fail(r.error);
        }
        q := q + 1;
      }
      res := Pass;
    }

    /** `Node.open(open_children, force_taint)`. */
    method Open(n: nat, oc: bool, ft: bool, ghost g: Acyclic) returns (res: Result<bool>)
      requires g.net == Structure() && n < |nodes| && Sound()
      modifies this`flags, this`nCalls
      ensures (State(), res) == OpenNode(g, n, oc, ft, old(State())) && Sound()
      decreases |nodes| - g.rank[n], 2
    {
      if !flags[n].closed && !ft {
        return Ok(true);
      }
      if oc {
        var c := OpenChildren(n, ft, g);
        if c.Fail? {
          return Err(c.error);
        }
      }
      Reopen(n, g);
      res := Ok(!flags[n].closed);
    }

    /** The end of `Node.open`: unfreeze, taint, open. */
    method Reopen(n: nat, ghost g: Acyclic)
      requires g.net == Structure() && n < |nodes| && Sound()
      modifies this`flags, this`nCalls
      ensures State() == Reopened(g, n, old(State())) && Sound()
    {
      Unfreeze(n, g);
      Taint(n, false, false, g);
      flags := flags[n := flags[n].(closed := false)];
    }

    /** The `open_children` loop over the positional outputs. */
    method OpenChildren(n: nat, ft: bool, ghost g: Acyclic) returns (res: Outcome)
      requires g.net == Structure() && n < |nodes| && Sound()
      modifies this`flags, this`nCalls
      ensures (State(), res) == OpenKids(g, n, 0, ft, old(State())) && Sound()
      decreases |nodes| - g.rank[n], 1
    {
      var j := 0;
      while j < |nodes[n].outs.posList|
        invariant j <= |nodes[n].outs.posList| && Sound()
        invariant OpenKids(g, n, 0, ft, old(State())) == OpenKids(g, n, j, ft, State())
      {
        res := OpenChildInputs(OutAt(Structure(), n, j), ft, g);
        if res.Fail? {
          return;
        }
        j := j + 1;
      }
      res := Pass;
    }

    /** The node of every child input of output `o` is opened with its
        children; a False raises OpeningError. */
    method OpenChildInputs(o: nat, ft: bool, ghost g: Acyclic) returns (res: Outcome)
      requires g.net == Structure() && o < |outputs| && Sound()
      modifies this`flags, this`nCalls
      ensures (State(), res) == OpenKidIns(g, o, 0, ft, old(State())) && Sound()
      decreases |nodes| - g.rank[outputs[o].node], 0
    {
      var q := 0;
      while q < |outputs[o].childInputs|
        invariant q <= |outputs[o].childInputs| && Sound()
        invariant OpenKidIns(g, o, 0, ft, old(State())) == OpenKidIns(g, o, q, ft, State())
      {
        var r := Open(inputs[outputs[o].childInputs[q]].node, true, ft, g);
        if r.Err? {
          return Fail(r.error);
        }
        if !r.value {
          return Fail(OpeningError);
        }
        q := q + 1;
      }
      res := Pass;
    }

    /** `Output.__taint_children` of output `o`. */
    method TaintAfterWrite(o: nat, ghost g: Acyclic) returns (res: Outcome)
      requires g.net == Structure() && o < |outputs| && Sound()
      modifies this`flags, this`nCalls
      ensures (State(), res) == OutputData.TaintAfterWrite(g, o, old(State())) && Sound()
    {
      OutputTaintChildren(o, false, false, g);
      var n := outputs[o].node;
      res := InvalidateParents(n, true, g);
      if res.Fail? {
        return;
      }
      flags := flags[n := flags[n].(tainted := false)];
    }

    /** `Output.set(v, check_taint, force_taint)`. */
    method Set(o: nat, v: Array, check: bool, force: bool, ghost g: Acyclic) returns (res: Result<bool>)
      requires g.net == Structure() && o < |outputs| && Sound()
      modifies this`flags, this`nCalls, this`bufs
      ensures (OutputData.Cell(State(), bufs), res) ==
              OutputData.SetValues(g, o, outs[o].data, v, check, force, OutputData.Cell(old(State()), old(bufs)))
      ensures Sound()
    {
      if flags[outputs[o].node].frozen && !force {
        return Ok(false);
      }
      var ref := outs[o].data;
      var differs: Result<bool> := Ok(true);
      if check {
        differs := OutputData.Differs(Get(bufs, ref), v);
      }
      if differs.Err? {
        return Err(differs.error);
      }
      if !differs.value {
        return Ok(false);
      }
      var w := OutputData.WriteAll(bufs, ref, v);
      if w.Err? {
        return Err(w.error);
      }
      bufs := w.value;
      var t := TaintAfterWrite(o, g);
      if t.Fail? {
        return Err(t.error);
      }
      res := Ok(true);
    }

    /** `Output.seti(idx, x, check_taint, force_taint)` on the flattened
        array. */
    method Seti(o: nat, idx: int, x: real, check: bool, force: bool, ghost g: Acyclic) returns (res: Result<bool>)
      requires g.net == Structure() && o < |outputs| && Sound()
      modifies this`flags, this`nCalls, this`bufs
      ensures (OutputData.Cell(State(), bufs), res) ==
              OutputData.SetValueAt(g, o, outs[o].data, idx, x, check, force, OutputData.Cell(old(State()), old(bufs)))
      ensures Sound()
    {
      if flags[outputs[o].node].frozen && !force {
        return Ok(false);
      }
      var ref := outs[o].data;
      var cur := Get(bufs, ref);
      if cur.None? {
        return Err(TypeError);
      }
      var k := PyIndex(|cur.value.flat|, idx);
      if k.None? {
        return Err(IndexError);
      }
      if check && cur.value.flat[k.value] == x {
        return Ok(false);
      }
      bufs := bufs[ref.value := cur.value.(flat := cur.value.flat[k.value := x])];
      var t := TaintAfterWrite(o, g);
      if t.Fail? {
        return Err(t.error);
      }
      res := Ok(true);
    }

    /** `Output.data`. */
    method Data(o: nat) returns (res: Result<Option<Array>>)
      requires o < |outputs| && outputs[o].node < |nodes| && Sound()
      modifies this`flags, this`nCalls
      ensures (State(), res) == OutputData.ReadData(outputs[o].node, outs[o].data, old(State()), bufs)
    {
      var n := outputs[o].node;
      if !flags[n].closed {
        return Err(UnclosedGraphError);
      }
      var t := Touch(n, false);
      res := Ok(Get(bufs, outs[o].data));
    }

    /** `Output._set_data(a, owns_buffer, forbid_reallocation)`: the array
        is added to the store. */
    method SetData(o: nat, a: Array, ownsBuffer: bool, forbid: Option<bool>, ghost g: Acyclic) returns (res: Outcome)
      requires g.net == Structure() && o < |outputs| && Sound()
      modifies this`flags, this`outs, this`bufs
      ensures (flags, outs, bufs, res) == OutputData.SetOutData(g, o, a, ownsBuffer, forbid, old(flags), old(outs), old(bufs))
      ensures Sound()
    {
      var n := outputs[o].node;
      var s := Ports.SetData(outs[o], flags[n].closed, outputs[o].allocatingInput.Some?, a, |bufs|, ownsBuffer, forbid);
      if s.Err? {
        return Fail(s.error);
      }
      if s.value.typeTaint {
        res := TaintType(n, false, g);
        if res.Fail? {
          return;
        }
      }
      outs := outs[o := s.value.out];
      bufs := bufs + [a];
      res := Pass;
    }

    /** `Output._connect_to_input(input)`, with every check made before
        the first change: a refused connection changes nothing. */
    method ConnectInput(o: nat, i: nat) returns (res: Outcome)
      requires W.Fit(Board()) && o < |outputs| && i < |inputs|
      modifies this`outputs, this`inputs
      ensures (Board(), res) == W.Bind(old(Board()), o, i)
    {
      var allocatable := ins[i].allocatable;
      if flags[outputs[o].node].closed {
        if allocatable {
          return Fail(ConnectionError);
        }
      } else if flags[inputs[i].node].closed {
        return Fail(ConnectionError);
      }
      if allocatable {
        if outputs[o].allocatingInput.Some? {
          return Fail(ConnectionError);
        }
        if outs[o].forbidRealloc {
          return Fail(ConnectionError);
        }
      }
      if flags[inputs[i].node].closed {
        return Fail(ClosedGraphError);
      }
      if inputs[i].parent.Some? {
        return Fail(ReconnectionError);
      }
      var out := outputs[o];
      outputs := outputs[o := out.(childInputs := out.childInputs + [i],
                                   allocatingInput := if allocatable then Some(i) else out.allocatingInput)];
      inputs := inputs[i := inputs[i].(parent := Some(o))];
      res := Pass;
    }

    /** `Node._add_input(name, positional, keyword, child_output)`. */
    method AddInputRaw(n: nat, name: string, positional: bool, keyword: bool, child: Option<nat>) returns (res: Result<nat>)
      requires W.Fit(Board()) && n < |nodes| && (child.Some? ==> child.value < |outputs|)
      modifies this`nodes, this`inputs, this`outputs, this`ins, this`flags
      ensures (Board(), res) == W.AddInputRaw(old(Board()), n, name, positional, keyword, child)
    {
      var e := nodes[n].ins;
      if Edges.Contains(e, name) {
        return Err(ReconnectionError);
      }
      var k := |inputs|;
      inputs := inputs + [InputRec(name, n, None, child)];
      ins := ins + [W.FreshIn()];
      if child.Some? {
        outputs := outputs[child.value := outputs[child.value].(parentInput := Some(k))];
      }
      var added := Edges.Add(e, Edges.Port(name, k), None, positional, keyword, false);
      if added.Err? {
        return Err(added.error);
      }
      nodes := nodes[n := nodes[n].(ins := added.value)];
      flags := flags[n := flags[n].(isAllocated := false)];
      res := Ok(k);
    }

    /** `Node._add_output(name, positional, keyword)`. */
    method AddOutputRaw(n: nat, name: string, positional: bool, keyword: bool) returns (res: Result<nat>)
      requires W.Fit(Board()) && n < |nodes|
      modifies this`nodes, this`outputs, this`outs, this`flags
      ensures (Board(), res) == W.AddOutputRaw(old(Board()), n, name, positional, keyword)
    {
      var e := nodes[n].outs;
      if Edges.Contains(e, name) {
        return Err(ReconnectionError);
      }
      var k := |outputs|;
      var added := Edges.Add(e, Edges.Port(name, k), None, positional, keyword, false);
      if added.Err? {
        return Err(added.error);
      }
      outputs := outputs + [OutputRec(name, n, [], None, None)];
      outs := outs + [W.FreshOut()];
      nodes := nodes[n := nodes[n].(outs := added.value)];
      flags := flags[n := flags[n].(isAllocated := false)];
      res := Ok(k);
    }

    /** A strategy's `__call__(idx, scope, idx_out)` on node `n`. */
    method RunStrategy(n: nat, idx: Option<int>, scope: Option<int>, idxOut: Option<int>) returns (res: Result<nat>)
      requires W.Fit(Board()) && n < |nodes|
      modifies this`nodes, this`inputs, this`outputs, this`ins, this`outs, this`flags, this`strategies
      ensures (Board(), res) == NB.RunStrategy(old(Board()), n, idx, scope, idxOut)
    {
      var s := strategies[n];
      var plan := IS.MakePlan(s, idx, scope, idxOut, |nodes[n].outs.posList|, |nodes[n].ins.posList|);
      if plan.Err? {
        return Err(plan.error);
      }
      var p := plan.value;
      var out := OutputStep(n, p.out);
      if out.Err? {
        return Err(out.error);
      }
      strategies := strategies[n := s.(scope := p.scope)];
      if p.inputName.Err? {
        return Err(p.inputName.error);
      }
      res := AddInputRaw(n, p.inputName.value, true, true, if p.link then out.value else None);
    }

    /** The output step of a strategy's plan. */
    method OutputStep(n: nat, a: IS.OutAction) returns (res: Result<Option<nat>>)
      requires W.Fit(Board()) && n < |nodes|
      requires a.LastOutput? ==> |nodes[n].outs.posList| > 0
      modifies this`nodes, this`inputs, this`outputs, this`ins, this`outs, this`flags, this`strategies
      ensures (Board(), res) == NB.OutputStep(old(Board()), n, a)
    {
      match a {
        case NoOutput =>
          res := Ok(None);
        case LastOutput =>
          res := Ok(Some(OutAt(Structure(), n, |nodes[n].outs.posList| - 1)));
        case NewOutput(name) =>
          var r := AddOutputRaw(n, name, true, true);
          if r.Err? {
            return Err(r.error);
          }
          res := Ok(Some(r.value));
      }
    }

    /** `Node.add_input(name, positional)`. */
    method AddInput(n: nat, name: string, positional: bool) returns (res: Result<nat>)
      requires W.Fit(Board()) && n < |nodes|
      modifies this`nodes, this`inputs, this`outputs, this`ins, this`outs, this`flags, this`strategies
      ensures (Board(), res) == NB.AddInput(old(Board()), n, name, positional)
    {
      if flags[n].closed {
        return Err(ClosedGraphError);
      }
      if |nodes[n].allowedKw| > 0 {
        if name !in nodes[n].allowedKw {
          return Err(CriticalError);
        }
        res := AddInputRaw(n, name, positional, true, None);
        return;
      }
      res := RunStrategy(n, None, None, None);
      if res.Err? {
        res := AddInputRaw(n, name, positional, true, None);
      }
    }

    /** `Node.add_output(name, positional, keyword)`. */
    method AddOutput(n: nat, name: string, positional: bool, keyword: bool) returns (res: Result<nat>)
      requires W.Fit(Board()) && n < |nodes|
      modifies this`nodes, this`outputs, this`outs, this`flags
      ensures (Board(), res) == NB.AddOutput(old(Board()), n, name, positional, keyword)
    {
      if flags[n].closed {
        return Err(ClosedGraphError);
      }
      res := AddOutputRaw(n, name, positional, keyword);
    }

    /** `node()`: the strategy makes the input. */
    method MakeInput(n: nat, scope: Option<int>) returns (res: Result<nat>)
      requires W.Fit(Board()) && n < |nodes|
      modifies this`nodes, this`inputs, this`outputs, this`ins, this`outs, this`flags, this`strategies
      ensures (Board(), res) == NB.MakeInput(old(Board()), n, scope)
    {
      if flags[n].closed {
        return Err(ClosedGraphError);
      }
      res := RunStrategy(n, None, scope, None);
      if res.Err? {
        res := Err(RuntimeError);
      }
    }

    /** `node(name)`: get the keyword input `name` or create it. */
    method Call(n: nat, name: Option<string>, scope: Option<int>) returns (res: Result<Edges.Limb>)
      requires W.Fit(Board()) && n < |nodes|
      modifies this`nodes, this`inputs, this`outputs, this`ins, this`outs, this`flags, this`strategies
      ensures (Board(), res) == NB.Call(old(Board()), n, name, scope)
    {
      if name.None? {
        var t := MakeInput(n, scope);
        res := if t.Err? then Err(t.error) else Ok(Edges.Single(t.value));
        return;
      }
      var kw := nodes[n].ins.kw.m;
      if name.value !in kw {
        var t := AddInput(n, name.value, false);
        res := if t.Err? then Err(t.error) else Ok(Edges.Single(t.value));
        return;
      }
      match kw[name.value] {
        case Single(h) =>
          if 0 <= h < |inputs| && inputs[h].parent.Some? {
            res := Err(ReconnectionError);
          } else {
            res := Ok(Edges.Single(h));
          }
        case Merged(hs) =>
          res := Ok(Edges.Merged(hs));
      }
    }

    /** The search of `_connect_to_node` for the first positional input of
        node `n` that is not connected. */
    method FirstFree(n: nat) returns (res: Result<Option<nat>>)
      requires n < |nodes|
      ensures res == NB.FirstFree(Structure(), n, 0)
    {
      var ps := nodes[n].ins.posList;
      var j := 0;
      while j < |ps|
        invariant 0 <= j <= |ps|
        invariant NB.FirstFree(Structure(), n, 0) == NB.FirstFree(Structure(), n, j)
      {
        match ps[j] {
          case Merged(_) =>
            return Err(AttributeError);
          case Single(h) =>
            if 0 <= h < |inputs| && inputs[h].parent.None? {
              return Ok(Some(h));
            }
        }
        j := j + 1;
      }
      res := Ok(None);
    }

    /** The input `_connect_to_node` binds to. */
    method TargetInput(n: nat, scope: int) returns (res: Result<nat>)
      requires W.Fit(Board()) && n < |nodes|
      modifies this`nodes, this`inputs, this`outputs, this`ins, this`outs, this`flags, this`strategies
      ensures (Board(), res) == NB.TargetInput(old(Board()), n, scope)
    {
      var f := FirstFree(n);
      if f.Err? {
        return Err(f.error);
      }
      if f.value.Some? {
        return Ok(f.value.value);
      }
      res := MakeInput(n, Some(scope));
    }

    /** `Output._connect_to_node(node, scope, reassign)`. */
    method ConnectToNode(o: nat, n: nat, scope: int, reassign: bool) returns (res: Outcome)
      requires W.Fit(Board()) && o < |outputs| && n < |nodes|
      modifies this`nodes, this`inputs, this`outputs, this`ins, this`outs, this`flags, this`strategies
      ensures (Board(), res) == NB.ConnectToNode(old(Board()), o, n, scope, reassign)
    {
      var t := TargetInput(n, scope);
      if t.Err? {
        return Fail(t.error);
      }
      res := ConnectInput(o, t.value);
      if res.Pass? && reassign {
        strategies := strategies[n := strategies[n].(scope := Some(scope))];
      }
    }

    /** `Output.__rshift__(target)`: a sequence is connected element by
        element. */
    method Shift(o: nat, t: NBase.Target) returns (res: Outcome)
      requires W.Fit(Board()) && o < |outputs| && NBase.Aimed(Structure(), t)
      modifies this`nodes, this`inputs, this`outputs, this`ins, this`outs, this`flags, this`strategies
      ensures (Board(), res) == NBase.Shift(old(Board()), o, t)
      decreases t
    {
      match t {
        case ToInput(i) =>
          res := ConnectInput(o, i);
        case ToNode(n) =>
          res := ConnectToNode(o, n, NBase.NextScope(Board(), n), true);
        case ToOther =>
          res := Fail(ConnectionError);
        case ToSeq(items) =>
          ghost var b0 := Board();
          var j := 0;
          while j < |items|
            invariant 0 <= j <= |items| && W.Fit(Board()) && o < |outputs|
            invariant forall k :: 0 <= k < |items| ==> NBase.Aimed(Structure(), items[k])
            invariant NBase.ShiftAll(b0, o, items, 0) == NBase.ShiftAll(Board(), o, items, j)
          {
            ghost var bj := Board();
            assert items[j] in items;
            res := Shift(o, items[j]);
            if res.Fail? {
              return;
            }
            forall k | 0 <= k < |items|
              ensures NBase.Aimed(Structure(), items[k])
            {
              NBase.AimedGrows(bj, Board(), items[k]);
            }
            j := j + 1;
          }
          res := Pass;
      }
    }

    /** `node >> target`. */
    method NodeShift(n: nat, t: NBase.Target) returns (res: Outcome)
      requires W.Fit(Board()) && n < |nodes| && NBase.Aimed(Structure(), t)
      modifies this`nodes, this`inputs, this`outputs, this`ins, this`outs, this`flags, this`strategies
      ensures (Board(), res) == NBase.NodeShift(old(Board()), n, t)
    {
      var d := nodes[n].outs.all;
      if |d.keys| != 1 {
        return Fail(ConnectionError);
      }
      assert d.keys[0] in d.keys && AllOutsOf(Structure(), n);
      res := Shift(d.m[d.keys[0]].handle, t);
    }

    /** `sources >> node`: the sources are bound, then the scope is
        stored. */
    method RShiftInto(n: nat, srcs: Option<seq<NBase.Source>>) returns (res: Outcome)
      requires W.Fit(Board()) && n < |nodes|
      requires srcs.Some? ==> forall k :: 0 <= k < |srcs.value| ==> NBase.Sourced(Structure(), srcs.value[k])
      modifies this`nodes, this`inputs, this`outputs, this`ins, this`outs, this`flags, this`strategies
      ensures (Board(), res) == NBase.RShiftInto(old(Board()), n, srcs)
    {
      if srcs.None? {
        return Fail(ConnectionError);
      }
      var scope := NBase.NextScope(Board(), n);
      res := BindAll(n, srcs.value, scope);
      if res.Pass? {
        strategies := strategies[n := strategies[n].(scope := Some(scope))];
      }
    }

    /** The loop of `sources >> node`: each source's output is bound to
        the node with the shared scope. */
    method BindAll(n: nat, items: seq<NBase.Source>, scope: int) returns (res: Outcome)
      requires W.Fit(Board()) && n < |nodes|
      requires forall k :: 0 <= k < |items| ==> NBase.Sourced(Board().net, items[k])
      modifies this`nodes, this`inputs, this`outputs, this`ins, this`outs, this`flags, this`strategies
      ensures (Board(), res) == NBase.BindAll(old(Board()), n, items, 0, scope)
    {
      ghost var b0 := Board();
      var j := 0;
      res := Pass;
      while j < |items|
        invariant 0 <= j <= |items| && W.Fit(Board()) && n < |Board().net.nodes| && res == Pass
        invariant forall k :: 0 <= k < |items| ==> NBase.Sourced(Board().net, items[k])
        invariant NBase.BindAll(b0, n, items, 0, scope) == NBase.BindAll(Board(), n, items, j, scope)
      {
        ghost var bj := Board();
        var so := NBase.SourceOutput(Board(), items[j]);
        if so.Err? {
          return Fail(so.error);
        }
        NBase.BindAllStep(bj, n, items, j, scope);
        res := ConnectToNode(so.value, n, scope, false);
        if res.Fail? {
          return;
        }
        j := j + 1;
      }
    }

    /** `node << storage`: the loop over the node's input names. */
    method LShift(n: nat, st: map<string, NBase.Stored>) returns (res: Outcome)
      requires W.Fit(Board()) && n < |nodes| && NBase.Stocked(Structure(), st)
      modifies this`inputs, this`outputs
      ensures (Board(), res) == NBase.LShift(old(Board()), n, st, 0)
    {
      ghost var b0 := Board();
      var d := nodes[n].ins.all;
      var j := 0;
      while j < |d.keys|
        invariant 0 <= j <= |d.keys| && W.Fit(Board()) && |outputs| == |b0.net.outputs|
        invariant NBase.LShift(b0, n, st, 0) == NBase.LShift(Board(), n, st, j)
      {
        var name := d.keys[j];
        if name in st {
          var found: Result<nat> := match st[name]
            case SOutput(o) => Ok(o)
            case SParameter(p) => if p.Some? then Ok(p.value) else Err(AttributeError)
            case SOther => Err(ConnectionError);
          if found.Err? {
            return Fail(found.error);
          }
          assert name in d.keys && InsOf(Structure(), n);
          var i := d.m[name].handle;
          if inputs[i].parent.None? {
            res := ConnectInput(found.value, i);
            if res.Fail? {
              return;
            }
          }
        }
        j := j + 1;
      }
      res := Pass;
    }

    /** The `input_strategy` setter. */
    method SetStrategy(n: nat, a: NBase.StrategyArg) returns (res: Outcome)
      requires W.Fit(Board()) && n < |nodes|
      modifies this`strategies
      ensures var r := NBase.SetStrategy(old(Board()), n, a);
              (r.Ok? ==> res == Pass && Board() == r.value) && (r.Err? ==> res == Fail(r.error) && Board() == old(Board()))
    {
      match a {
        case SNone =>
          strategies := strategies[n := IS.Default];
        case SInstance(s) =>
          strategies := strategies[n := s];
        case SClass(k) =>
          if k.None? {
            return Fail(InitializationError);
          }
          var made := IS.New(k.value, Formatters.AFormatter(IS.DefaultInputFmt), Formatters.AFormatter(IS.DefaultOutputFmt), false);
          strategies := strategies[n := made.value];
        case SValue =>
          return Fail(TypeError);
      }
      res := Pass;
    }
  }
}
