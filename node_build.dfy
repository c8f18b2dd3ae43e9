/** Growing a node and binding an output to it (src/dagflow/core/node.py
    `__call__`, `add_input`, `add_output`, `_make_input`; the strategies'
    `__call__` of dagflow/core/input_strategy.py; src/dagflow/core/output.py
    `_connect_to_node`) as functions on a `Board`. */
module NodeBuild {
  import opened Base
  import opened Links
  import opened NodeFlags
  import opened Wiring
  import Edges
  import IS = InputStrategy

  /** The output step of a plan: none, the last positional output of the
      node, or a new output added under the planned name. */
  function OutputStep(b: Board, n: nat, a: IS.OutAction): (r: (Board, Result<Option<nat>>))
    requires Fit(b) && n < |b.net.nodes|
    requires a.LastOutput? ==> |b.net.nodes[n].outs.posList| > 0
    ensures Fit(r.0) && |r.0.net.nodes| == |b.net.nodes|
    ensures r.1.Ok? && r.1.value.Some? ==> r.1.value.value < |r.0.net.outputs| && r.0.net.outputs[r.1.value.value].node == n
    ensures a.NoOutput? ==> r == (b, Ok(None))
    ensures a.LastOutput? ==> r.0 == b && r.1.Ok? && r.1.value.Some? &&
                              r.1.value.value == OutAt(b.net, n, |b.net.nodes[n].outs.posList| - 1)
    ensures a.NewOutput? ==> r.0 == AddOutputRaw(b, n, a.name, true, true).0 &&
                             (r.1.Ok? <==> AddOutputRaw(b, n, a.name, true, true).1.Ok?) &&
                             (r.1.Ok? ==> r.1.value == Some(|b.net.outputs|))
  {
    match a
    case NoOutput => (b, Ok(None))
    case LastOutput => (b, Ok(Some(OutAt(b.net, n, |b.net.nodes[n].outs.posList| - 1))))
    case NewOutput(name) =>
      var r := AddOutputRaw(b, n, name, true, true);
      if r.1.Err? then (r.0, Err(r.1.error)) else (r.0, Ok(Some(r.1.value)))
  }

  /** A strategy's `__call__(idx, scope, idx_out)` on node `n`: the plan of
      the node's strategy is carried out step by step - the output step,
      the stored scope, then the new positional input under the planned
      name, paired with the chosen output when the plan links them.  A step
      that raises leaves the earlier steps' changes in place.  The result
      is the new input's number. */
  function RunStrategy(b: Board, n: nat, idx: Option<int>, scope: Option<int>, idxOut: Option<int>): (r: (Board, Result<nat>))
    requires Fit(b) && n < |b.net.nodes|
    ensures Fit(r.0) && |r.0.net.nodes| == |b.net.nodes|
    ensures |r.0.net.outputs| >= |b.net.outputs| && |b.net.inputs| <= |r.0.net.inputs| <= |b.net.inputs| + 1
    ensures var e := b.net.nodes[n];
            var p := IS.MakePlan(b.strategies[n], idx, scope, idxOut, |e.outs.posList|, |e.ins.posList|);
            (p.Err? ==> r == (b, Err(p.error))) &&
            (r.1.Ok? ==>
               p.Ok? && p.value.inputName.Ok? &&
               |r.0.net.outputs| == |b.net.outputs| + (if p.value.out.NewOutput? then 1 else 0) &&
               r.1.value == |r.0.net.inputs| - 1 && |r.0.net.inputs| == |b.net.inputs| + 1 &&
               r.0.net.inputs[r.1.value].name == p.value.inputName.value &&
               r.0.net.inputs[r.1.value].node == n && r.0.net.inputs[r.1.value].parent.None? &&
               r.0.net.nodes[n].ins.posList == e.ins.posList + [Edges.Single(r.1.value)] &&
               r.0.strategies[n] == b.strategies[n].(scope := p.value.scope) &&
               (p.value.link <==> r.0.net.inputs[r.1.value].child.Some?) &&
               (p.value.link ==> var c := r.0.net.inputs[r.1.value].child.value;
                                 c < |r.0.net.outputs| && r.0.net.outputs[c].node == n &&
                                 r.0.net.outputs[c].parentInput == Some(r.1.value)))
  {
    var s := b.strategies[n];
    var e := b.net.nodes[n];
    match IS.MakePlan(s, idx, scope, idxOut, |e.outs.posList|, |e.ins.posList|)
    case Err(err) => (b, Err(err))
    case Ok(p) =>
      var st := OutputStep(b, n, p.out);
      if st.1.Err? then (st.0, Err(st.1.error))
      else
        var b2 := st.0.(strategies := st.0.strategies[n := s.(scope := p.scope)]);
        assert b2.net.nodes[n].ins == e.ins;
        InputStep(b2, n, p.inputName, if p.link then st.1.value else None)
  }

  /** The input step of a plan: a name that could not be formatted raises
      its error; otherwise a new positional and keyword input of node `n`
      under that name, paired with `child` when one is given. */
  function InputStep(b: Board, n: nat, name: Result<string>, child: Option<nat>): (r: (Board, Result<nat>))
    requires Fit(b) && n < |b.net.nodes| && (child.Some? ==> child.value < |b.net.outputs|)
    ensures Fit(r.0) && |r.0.net.nodes| == |b.net.nodes|
    ensures |r.0.net.outputs| == |b.net.outputs| && |b.net.inputs| <= |r.0.net.inputs| <= |b.net.inputs| + 1
    ensures name.Err? ==> r == (b, Err(name.error))
    ensures r.1.Ok? ==>
      name.Ok? && r.1.value == |b.net.inputs| && |r.0.net.inputs| == |b.net.inputs| + 1 &&
      r.0.net.inputs[r.1.value] == InputRec(name.value, n, None, child) &&
      r.0.net.nodes[n].ins.posList == b.net.nodes[n].ins.posList + [Edges.Single(r.1.value)] &&
      r.0.strategies == b.strategies &&
      (child.Some? ==> r.0.net.outputs[child.value] == b.net.outputs[child.value].(parentInput := Some(r.1.value)))
  {
    if name.Err? then (b, Err(name.error))
    else AddInputRaw(b, n, name.value, true, true, child)
  }

  /** Carrying out a strategy keeps every connection's two directions in
      agreement: new ports start unconnected. */
  lemma RunStrategyKeepsLinked(b: Board, n: nat, idx: Option<int>, scope: Option<int>, idxOut: Option<int>)
    requires Fit(b) && n < |b.net.nodes| && Linked(b.net)
    ensures Linked(RunStrategy(b, n, idx, scope, idxOut).0.net)
  {
    var s := b.strategies[n];
    var e := b.net.nodes[n];
    var p := IS.MakePlan(s, idx, scope, idxOut, |e.outs.posList|, |e.ins.posList|);
    if p.Ok? {
      var st := OutputStep(b, n, p.value.out);
      AddOutputKeepsLinked(b, n, p.value.out);
      if st.1.Ok? && p.value.inputName.Ok? {
        var b2 := st.0.(strategies := st.0.strategies[n := s.(scope := p.value.scope)]);
        AddInputKeepsLinked(b2, n, p.value.inputName.value, true, true, if p.value.link then st.1.value else None);
      }
    }
  }

  lemma AddOutputKeepsLinked(b: Board, n: nat, a: IS.OutAction)
    requires Fit(b) && n < |b.net.nodes| && Linked(b.net)
    requires a.LastOutput? ==> |b.net.nodes[n].outs.posList| > 0
    ensures Linked(OutputStep(b, n, a).0.net)
  {
    if a.NewOutput? {
      var r := OutputStep(b, n, a).0.net;
      if r != b.net {
        assert r.outputs == b.net.outputs + [OutputRec(a.name, n, [], None, None)];
        assert r.inputs == b.net.inputs;
        forall o, q | 0 <= o < |r.outputs| && 0 <= q < |r.outputs[o].childInputs|
          ensures r.outputs[o].childInputs[q] < |r.inputs| && r.inputs[r.outputs[o].childInputs[q]].parent == Some(o)
        {
          assert o < |b.net.outputs|;
        }
      }
    }
  }

  lemma AddInputKeepsLinked(b: Board, n: nat, name: string, positional: bool, keyword: bool, child: Option<nat>)
    requires Fit(b) && n < |b.net.nodes| && (child.Some? ==> child.value < |b.net.outputs|) && Linked(b.net)
    ensures Linked(AddInputRaw(b, n, name, positional, keyword, child).0.net)
  {
    var r := AddInputRaw(b, n, name, positional, keyword, child).0.net;
    if !Edges.Contains(b.net.nodes[n].ins, name) {
      forall o, q | 0 <= o < |r.outputs| && 0 <= q < |r.outputs[o].childInputs|
        ensures r.outputs[o].childInputs[q] < |r.inputs| && r.inputs[r.outputs[o].childInputs[q]].parent == Some(o)
      {
        assert r.outputs[o].childInputs == b.net.outputs[o].childInputs;
      }
      forall o | 0 <= o < |r.outputs| && r.outputs[o].allocatingInput.Some?
        ensures r.outputs[o].allocatingInput.value in r.outputs[o].childInputs
      {
        assert r.outputs[o].childInputs == b.net.outputs[o].childInputs;
      }
      forall i | 0 <= i < |r.inputs| && r.inputs[i].parent.Some?
        ensures r.inputs[i].parent.value < |r.outputs| && i in r.outputs[r.inputs[i].parent.value].childInputs
      {
        assert i < |b.net.inputs|;
        assert r.outputs[r.inputs[i].parent.value].childInputs == b.net.outputs[b.net.inputs[i].parent.value].childInputs;
      }
    }
  }

  /** `Node.add_input(name, positional)`: a closed node refuses with
      ClosedGraphError.  A node with a list of allowed keyword inputs
      refuses any other name with CriticalError and adds an allowed one
      directly.  Otherwise the node's strategy is tried first; only when it
      raises (its changes so far stay) is the input added under `name`. */
  function AddInput(b: Board, n: nat, name: string, positional: bool): (r: (Board, Result<nat>))
    requires Fit(b) && n < |b.net.nodes|
    ensures Fit(r.0) && |r.0.net.nodes| == |b.net.nodes|
    ensures b.flags[n].closed ==> r == (b, Err(ClosedGraphError))
    ensures !b.flags[n].closed && |b.net.nodes[n].allowedKw| > 0 && name !in b.net.nodes[n].allowedKw ==> r == (b, Err(CriticalError))
    ensures !b.flags[n].closed && |b.net.nodes[n].allowedKw| > 0 && name in b.net.nodes[n].allowedKw ==>
              r == AddInputRaw(b, n, name, positional, true, None)
    ensures !b.flags[n].closed && |b.net.nodes[n].allowedKw| == 0 && b.strategies[n].kind.BaseStrategy? ==>
              r == AddInputRaw(b, n, name, positional, true, None)
    ensures r.1.Ok? ==> r.1.value < |r.0.net.inputs| && r.0.net.inputs[r.1.value].node == n
  {
    if b.flags[n].closed then (b, Err(ClosedGraphError))
    else if |b.net.nodes[n].allowedKw| > 0 then
      if name !in b.net.nodes[n].allowedKw then (b, Err(CriticalError))
      else AddInputRaw(b, n, name, positional, true, None)
    else
      var t := RunStrategy(b, n, None, None, None);
      if t.1.Ok? then t else AddInputRaw(t.0, n, name, positional, true, None)
  }

  /** `Node.add_output(name)`: a closed node refuses with ClosedGraphError. */
  function AddOutput(b: Board, n: nat, name: string, positional: bool, keyword: bool): (r: (Board, Result<nat>))
    requires Fit(b) && n < |b.net.nodes|
    ensures Fit(r.0)
    ensures b.flags[n].closed ==> r == (b, Err(ClosedGraphError))
    ensures !b.flags[n].closed ==> r == AddOutputRaw(b, n, name, positional, keyword)
  {
    if b.flags[n].closed then (b, Err(ClosedGraphError)) else AddOutputRaw(b, n, name, positional, keyword)
  }

  /** `node()` with no name: a closed node refuses with ClosedGraphError;
      otherwise the strategy makes the input, and whatever it raises is
      reported as RuntimeError. */
  function MakeInput(b: Board, n: nat, scope: Option<int>): (r: (Board, Result<nat>))
    requires Fit(b) && n < |b.net.nodes|
    ensures Fit(r.0) && |r.0.net.nodes| == |b.net.nodes|
    ensures |r.0.net.outputs| >= |b.net.outputs| && |b.net.inputs| <= |r.0.net.inputs| <= |b.net.inputs| + 1
    ensures b.flags[n].closed ==> r == (b, Err(ClosedGraphError))
    ensures !b.flags[n].closed ==> r.0 == RunStrategy(b, n, None, scope, None).0
    ensures !b.flags[n].closed && r.1.Err? ==> r.1.error == RuntimeError
    ensures r.1.Ok? ==> r.1 == RunStrategy(b, n, None, scope, None).1
  {
    if b.flags[n].closed then (b, Err(ClosedGraphError))
    else
      var t := RunStrategy(b, n, None, scope, None);
      if t.1.Err? then (t.0, Err(RuntimeError)) else t
  }

  /** `node(name)`: an input listed under `name` in the keyword dictionary
      is returned, unless it is already bound (ReconnectionError); an
      unknown name is added as a non-positional input through `add_input`.
      Without a name, the strategy makes a new input. */
  function Call(b: Board, n: nat, name: Option<string>, scope: Option<int>): (r: (Board, Result<Edges.Limb>))
    requires Fit(b) && n < |b.net.nodes|
    ensures Fit(r.0)
    ensures name.None? && b.flags[n].closed ==> r == (b, Err(ClosedGraphError))
    ensures name.Some? && name.value in b.net.nodes[n].ins.kw.m ==>
              r.0 == b && (r.1.Ok? ==> r.1.value == b.net.nodes[n].ins.kw.m[name.value])
    ensures name.Some? && name.value in b.net.nodes[n].ins.kw.m && b.net.nodes[n].ins.kw.m[name.value].Single? ==>
              var h := b.net.nodes[n].ins.kw.m[name.value].handle;
              (r.1.Err? <==> 0 <= h < |b.net.inputs| && InputConnected(b.net, h)) &&
              (r.1.Err? ==> r.1.error == ReconnectionError)
    ensures name.Some? && name.value !in b.net.nodes[n].ins.kw.m ==>
              var t := AddInput(b, n, name.value, false);
              r.0 == t.0 && (r.1.Ok? <==> t.1.Ok?) && (r.1.Ok? ==> r.1.value == Edges.Single(t.1.value))
  {
    if name.None? then
      var t := MakeInput(b, n, scope);
      if t.1.Err? then (t.0, Err(t.1.error)) else (t.0, Ok(Edges.Single(t.1.value)))
    else
      var e := b.net.nodes[n].ins;
      if name.value !in e.kw.m then
        var t := AddInput(b, n, name.value, false);
        if t.1.Err? then (t.0, Err(t.1.error)) else (t.0, Ok(Edges.Single(t.1.value)))
      else match e.kw.m[name.value]
        case Single(h) =>
          if 0 <= h < |b.net.inputs| && InputConnected(b.net, h) then (b, Err(ReconnectionError))
          else (b, Ok(Edges.Single(h)))
        case Merged(hs) => (b, Ok(Edges.Merged(hs)))
  }

  /** The first positional input of node `n`, from the `j`-th on, that is
      not connected; a merged item has no `connected` and raises
      AttributeError.  A number outside the input table names no input. */
  function FirstFree(net: Net, n: nat, j: nat): (r: Result<Option<nat>>)
    requires n < |net.nodes| && j <= |net.nodes[n].ins.posList|
    ensures r.Ok? && r.value.Some? ==>
              r.value.value < |net.inputs| && !InputConnected(net, r.value.value) &&
              Edges.Single(r.value.value) in net.nodes[n].ins.posList[j..]
    ensures r == Ok(None) ==>
              forall k :: j <= k < |net.nodes[n].ins.posList| ==>
                var l := net.nodes[n].ins.posList[k];
                l.Single? && (0 <= l.handle < |net.inputs| ==> InputConnected(net, l.handle))
    decreases |net.nodes[n].ins.posList| - j
  {
    var ps := net.nodes[n].ins.posList;
    if j == |ps| then Ok(None)
    else match ps[j]
      case Merged(_) => Err(AttributeError)
      case Single(h) =>
        if 0 <= h < |net.inputs| && !InputConnected(net, h) then Ok(Some(h))
        else
          var r := FirstFree(net, n, j + 1);
          assert ps[j + 1..] == ps[j..][1..];
          r
  }

  /** The input `_connect_to_node` binds to: the node's first free
      positional input, or, when none is free, a new one made by `node()`
      with the scope passed on. */
  function TargetInput(b: Board, n: nat, scope: int): (r: (Board, Result<nat>))
    requires Fit(b) && n < |b.net.nodes|
    ensures Fit(r.0) && |r.0.net.nodes| == |b.net.nodes| && |r.0.net.outputs| >= |b.net.outputs|
    ensures |b.net.inputs| <= |r.0.net.inputs| <= |b.net.inputs| + 1
    ensures var f := FirstFree(b.net, n, 0);
            (f.Err? ==> r == (b, Err(f.error))) &&
            (f.Ok? && f.value.Some? ==> r == (b, Ok(f.value.value))) &&
            (f == Ok(None) ==> r == MakeInput(b, n, Some(scope)))
    ensures r.1.Ok? ==> r.1.value < |r.0.net.inputs| && Edges.Single(r.1.value) in r.0.net.nodes[n].ins.posList
  {
    var f := FirstFree(b.net, n, 0);
    if f.Err? then (b, Err(f.error))
    else if f.value.Some? then
      assert b.net.nodes[n].ins.posList[0..] == b.net.nodes[n].ins.posList;
      (b, Ok(f.value.value))
    else
      var t := MakeInput(b, n, Some(scope));
      if t.1.Ok? then
        assert t.1 == RunStrategy(b, n, None, Some(scope), None).1;
        assert t.0.net.nodes[n].ins.posList[|t.0.net.nodes[n].ins.posList| - 1] == Edges.Single(t.1.value);
        t
      else t
  }

  /** `Output._connect_to_node(node, scope, reassign)`: the output is bound
      to the input `TargetInput` yields; with `reassign` the scope is then
      stored in the node's strategy. */
  function ConnectToNode(b: Board, o: nat, n: nat, scope: int, reassign: bool): (r: (Board, Outcome))
    requires Fit(b) && o < |b.net.outputs| && n < |b.net.nodes|
    ensures Fit(r.0) && |r.0.net.nodes| == |b.net.nodes| && |r.0.net.outputs| >= |b.net.outputs|
    ensures |b.net.inputs| <= |r.0.net.inputs| <= |b.net.inputs| + 1
    ensures var t := TargetInput(b, n, scope);
            (t.1.Err? ==> r == (t.0, Fail(t.1.error))) &&
            (t.1.Ok? ==> match Connect(t.0, o, t.1.value)
                         case Err(e) => r == (t.0, Fail(e))
                         case Ok(b1) => r.1 == Pass && r.0.net == b1.net)
    ensures r.1.Pass? ==>
              var c := r.0.net.outputs[o].childInputs;
              |c| > 0 && c[|c| - 1] < |r.0.net.inputs| && r.0.net.inputs[c[|c| - 1]].parent == Some(o) &&
              Edges.Single(c[|c| - 1]) in r.0.net.nodes[n].ins.posList
    ensures r.1.Pass? && reassign ==> r.0.strategies[n].scope == Some(scope)
  {
    var t := TargetInput(b, n, scope);
    if t.1.Err? then (t.0, Fail(t.1.error))
    else
      match Connect(t.0, o, t.1.value)
      case Err(e) => (t.0, Fail(e))
      case Ok(b2) =>
        var b3 := if reassign then b2.(strategies := b2.strategies[n := b2.strategies[n].(scope := Some(scope))]) else b2;
        (b3, Pass)
  }

  /** Binding an output to a node keeps every connection's two directions
      in agreement. */
  lemma ConnectToNodeKeepsLinked(b: Board, o: nat, n: nat, scope: int, reassign: bool)
    requires Fit(b) && o < |b.net.outputs| && n < |b.net.nodes| && Linked(b.net)
    ensures Linked(ConnectToNode(b, o, n, scope, reassign).0.net)
  {
    if FirstFree(b.net, n, 0) == Ok(None) && !b.flags[n].closed {
      RunStrategyKeepsLinked(b, n, None, Some(scope), None);
    }
    var t := TargetInput(b, n, scope);
    if t.1.Ok? && Connect(t.0, o, t.1.value).Ok? {
      ConnectKeepsLinked(t.0, o, t.1.value);
    }
  }

  /** `node(name)` is get-or-create: once it has made an input for a new
      name (directly, as a node with allowed keyword inputs or with the base
      strategy does), calling it again with that name returns the same
      input and changes nothing. */
  lemma CallAgain(b: Board, n: nat, name: string, scope: Option<int>)
    requires Fit(b) && n < |b.net.nodes|
    requires |b.net.nodes[n].allowedKw| > 0 || b.strategies[n].kind.BaseStrategy?
    ensures var r := Call(b, n, Some(name), scope);
            r.1.Ok? ==> Call(r.0, n, Some(name), scope) == r
  {
    var r := Call(b, n, Some(name), scope);
    if r.1.Ok? && name !in b.net.nodes[n].ins.kw.m {
      var t := AddInput(b, n, name, false);
      assert t == AddInputRaw(b, n, name, false, true, None);
      assert r.0.net.nodes[n].ins.kw.m[name] == Edges.Single(t.1.value);
      assert !InputConnected(r.0.net, t.1.value);
    }
  }

  /** An input whose name is already taken is refused by `add_input` with
      ReconnectionError (or by the closed or allowed-name checks first), and
      nothing changes. */
  lemma AddInputTaken(b: Board, n: nat, name: string, positional: bool)
    requires Fit(b) && n < |b.net.nodes| && Edges.Contains(b.net.nodes[n].ins, name)
    requires |b.net.nodes[n].allowedKw| > 0 || b.strategies[n].kind.BaseStrategy?
    ensures AddInput(b, n, name, positional).0 == b && AddInput(b, n, name, positional).1.Err?
  {
  }
}
