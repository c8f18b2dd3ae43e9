/** Binding ports and growing nodes (src/dagflow/core/output.py
    `_connect_to_input`, src/dagflow/core/input.py `set_parent_output` and
    `_set_child_output`, src/dagflow/core/node.py `_add_input` and
    `_add_output`) as functions on a `Board`: the link structure together
    with the per-port states, the node flags and each node's input
    strategy. */
module Wiring {
  import opened Base
  import opened Links
  import opened NodeFlags
  import opened Ports
  import DataDescriptor
  import Edges
  import InputStrategy

  datatype Board = Board(
    net: Net,
    ins: seq<InState>,
    outs: seq<OutState>,
    flags: seq<Flags>,
    strategies: seq<InputStrategy.Strategy>)

  /** The tables agree in size and every number the links hold is in range. */
  predicate Fit(b: Board)
  {
    Wired(b.net) && |b.ins| == |b.net.inputs| && |b.outs| == |b.net.outputs| &&
    |b.flags| == |b.net.nodes| && |b.strategies| == |b.net.nodes|
  }

  /** `Input.connected()`: the input has a parent output. */
  predicate InputConnected(net: Net, i: nat)
    requires i < |net.inputs|
  {
    net.inputs[i].parent.Some?
  }

  /** `Output.connected()`: the output feeds at least one input. */
  predicate OutputConnected(net: Net, o: nat)
    requires o < |net.outputs|
  {
    |net.outputs[o].childInputs| > 0
  }

  /** The two directions of a connection agree: every child input of an
      output names that output as its parent, every connected input is
      listed (once) by its parent, and an allocating input is a child. */
  predicate Linked(net: Net)
  {
    (forall o, q :: 0 <= o < |net.outputs| && 0 <= q < |net.outputs[o].childInputs| ==>
       net.outputs[o].childInputs[q] < |net.inputs| && net.inputs[net.outputs[o].childInputs[q]].parent == Some(o)) &&
    (forall o, p, q :: 0 <= o < |net.outputs| && 0 <= p < q < |net.outputs[o].childInputs| ==>
       net.outputs[o].childInputs[p] != net.outputs[o].childInputs[q]) &&
    (forall i :: 0 <= i < |net.inputs| && net.inputs[i].parent.Some? ==>
       net.inputs[i].parent.value < |net.outputs| && i in net.outputs[net.inputs[i].parent.value].childInputs) &&
    (forall o :: 0 <= o < |net.outputs| && net.outputs[o].allocatingInput.Some? ==>
       net.outputs[o].allocatingInput.value in net.outputs[o].childInputs)
  }

  /** Whether the node owning output `o` (input `i`) is closed. */
  function OutClosed(b: Board, o: nat): bool
    requires Fit(b) && o < |b.net.outputs|
  {
    b.flags[b.net.outputs[o].node].closed
  }

  function InClosed(b: Board, i: nat): bool
    requires Fit(b) && i < |b.net.inputs|
  {
    b.flags[b.net.inputs[i].node].closed
  }

  /** The checks `_connect_to_input` makes before it changes anything: a
      closed output takes no allocatable input, an open output no input of
      a closed node; an allocatable input needs an output with no
      allocating input yet that allows reallocation. */
  function ConnectChecks(b: Board, o: nat, i: nat): (r: Outcome)
    requires Fit(b) && o < |b.net.outputs| && i < |b.net.inputs|
    ensures r.Fail? ==> r.error == ConnectionError
  {
    if OutClosed(b, o) && b.ins[i].allocatable then Fail(ConnectionError)
    else if !OutClosed(b, o) && InClosed(b, i) then Fail(ConnectionError)
    else if b.ins[i].allocatable && b.net.outputs[o].allocatingInput.Some? then Fail(ConnectionError)
    else if b.ins[i].allocatable && b.outs[o].forbidRealloc then Fail(ConnectionError)
    else Pass
  }

  /** The checks of `set_parent_output`: the input's node is open and the
      input has no parent yet. */
  function ParentChecks(b: Board, i: nat): (r: Outcome)
    requires Fit(b) && i < |b.net.inputs|
    ensures r.Pass? <==> !InClosed(b, i) && !InputConnected(b.net, i)
  {
    if InClosed(b, i) then Fail(ClosedGraphError)
    else if InputConnected(b.net, i) then Fail(ReconnectionError)
    else Pass
  }

  /** The changes of a connection: the output records the input (and, for
      an allocatable input, takes it as its allocating input); the input
      takes the output as its parent. */
  function Link(b: Board, o: nat, i: nat): (r: Board)
    requires Fit(b) && o < |b.net.outputs| && i < |b.net.inputs|
    ensures Fit(r)
  {
    var out := b.net.outputs[o];
    var ain := if b.ins[i].allocatable then Some(i) else out.allocatingInput;
    var net1 := b.net.(outputs := b.net.outputs[o := out.(childInputs := out.childInputs + [i], allocatingInput := ain)]);
    var net2 := net1.(inputs := net1.inputs[i := net1.inputs[i].(parent := Some(o))]);
    assert forall k :: 0 <= k < |net2.nodes| ==> OutsOf(net2, k) && InsOf(net2, k) && AllOutsOf(net2, k) by {
      forall k | 0 <= k < |net2.nodes|
        ensures OutsOf(net2, k) && InsOf(net2, k) && AllOutsOf(net2, k)
      {
        assert OutsOf(b.net, k) && InsOf(b.net, k) && AllOutsOf(b.net, k);
      }
    }
    b.(net := net2)
  }

  /** `Output._connect_to_input` as written: after its own checks it
      records the input and only then calls `set_parent_output`, whose
      refusal leaves the output listing an input that is not bound to it. */
  function ConnectAsWritten(b: Board, o: nat, i: nat): (r: (Board, Outcome))
    requires Fit(b) && o < |b.net.outputs| && i < |b.net.inputs|
    ensures Fit(r.0)
  {
    if ConnectChecks(b, o, i).Fail? then (b, ConnectChecks(b, o, i))
    else
      var out := b.net.outputs[o];
      var ain := if b.ins[i].allocatable then Some(i) else out.allocatingInput;
      var b1 := b.(net := b.net.(outputs := b.net.outputs[o := out.(childInputs := out.childInputs + [i], allocatingInput := ain)]));
      assert Fit(b1) by {
        forall k | 0 <= k < |b1.net.nodes|
          ensures OutsOf(b1.net, k) && InsOf(b1.net, k) && AllOutsOf(b1.net, k)
        {
          assert OutsOf(b.net, k) && InsOf(b.net, k) && AllOutsOf(b.net, k);
        }
      }
      if ParentChecks(b, i).Fail? then (b1, ParentChecks(b, i))
      else (Link(b, o, i), Pass)
  }

  /** `_connect_to_input` with every check made before the first change:
      a refused connection changes nothing.  The errors are those of the
      code as written. */
  function Connect(b: Board, o: nat, i: nat): (r: Result<Board>)
    requires Fit(b) && o < |b.net.outputs| && i < |b.net.inputs|
    ensures r.Ok? ==> Fit(r.value)
    ensures r.Ok? <==> ConnectChecks(b, o, i).Pass? && !InClosed(b, i) && !InputConnected(b.net, i)
    ensures r.Err? ==> r.error == ConnectionError || r.error == ClosedGraphError || r.error == ReconnectionError
    ensures OutClosed(b, o) && b.ins[i].allocatable ==> r == Err(ConnectionError)
    ensures !OutClosed(b, o) && InClosed(b, i) ==> r == Err(ConnectionError)
    ensures b.ins[i].allocatable && (b.net.outputs[o].allocatingInput.Some? || b.outs[o].forbidRealloc) ==> r == Err(ConnectionError)
    ensures ConnectChecks(b, o, i).Pass? && InputConnected(b.net, i) && !InClosed(b, i) ==> r == Err(ReconnectionError)
    ensures r.Ok? ==>
      var out := b.net.outputs[o];
      r.value.net.outputs == b.net.outputs[o := out.(childInputs := out.childInputs + [i],
                                                    allocatingInput := if b.ins[i].allocatable then Some(i) else out.allocatingInput)] &&
      r.value.net.inputs == b.net.inputs[i := b.net.inputs[i].(parent := Some(o))] &&
      r.value.net.nodes == b.net.nodes && r.value.ins == b.ins && r.value.outs == b.outs &&
      r.value.flags == b.flags && r.value.strategies == b.strategies
  {
    if ConnectChecks(b, o, i).Fail? then Err(ConnectChecks(b, o, i).error)
    else if ParentChecks(b, i).Fail? then Err(ParentChecks(b, i).error)
    else Ok(Link(b, o, i))
  }

  /** `_connect_to_input` as a step on a board: a refused connection
      leaves the board as it was. */
  function Bind(b: Board, o: nat, i: nat): (r: (Board, Outcome))
    requires Fit(b) && o < |b.net.outputs| && i < |b.net.inputs|
    ensures Fit(r.0)
    ensures r.1.Pass? <==> Connect(b, o, i).Ok?
  {
    match Connect(b, o, i)
    case Ok(b1) => (b1, Pass)
    case Err(e) => (b, Fail(e))
  }

  /** Where both succeed they agree, and they refuse the same connections
      with the same error: only what a refusal leaves behind differs. */
  lemma ConnectAsWrittenVerdict(b: Board, o: nat, i: nat)
    requires Fit(b) && o < |b.net.outputs| && i < |b.net.inputs|
    ensures Connect(b, o, i).Ok? <==> ConnectAsWritten(b, o, i).1.Pass?
    ensures Connect(b, o, i).Ok? ==> ConnectAsWritten(b, o, i).0 == Connect(b, o, i).value
    ensures Connect(b, o, i).Err? ==> ConnectAsWritten(b, o, i).1 == Fail(Connect(b, o, i).error)
  {
  }

  /** A connection keeps both directions of every link in agreement, and
      leaves both ends connected. */
  lemma ConnectKeepsLinked(b: Board, o: nat, i: nat)
    requires Fit(b) && o < |b.net.outputs| && i < |b.net.inputs| && Linked(b.net)
    requires Connect(b, o, i).Ok?
    ensures Linked(Connect(b, o, i).value.net)
    ensures InputConnected(Connect(b, o, i).value.net, i) && OutputConnected(Connect(b, o, i).value.net, o)
    ensures i !in b.net.outputs[o].childInputs
  {
    var net := b.net;
    var r := Connect(b, o, i).value.net;
    forall q | 0 <= q < |net.outputs[o].childInputs|
      ensures net.outputs[o].childInputs[q] != i
    {
      assert net.inputs[net.outputs[o].childInputs[q]].parent == Some(o);
    }
    forall x, q | 0 <= x < |r.outputs| && 0 <= q < |r.outputs[x].childInputs|
      ensures r.outputs[x].childInputs[q] < |r.inputs| && r.inputs[r.outputs[x].childInputs[q]].parent == Some(x)
    {
      if x != o || q < |net.outputs[o].childInputs| {
        var c := net.outputs[x].childInputs[q];
        assert net.inputs[c].parent == Some(x);
        assert c != i;
      }
    }
    forall x, p, q | 0 <= x < |r.outputs| && 0 <= p < q < |r.outputs[x].childInputs|
      ensures r.outputs[x].childInputs[p] != r.outputs[x].childInputs[q]
    {
      if x == o && q == |net.outputs[o].childInputs| {
        assert net.outputs[o].childInputs[p] in net.outputs[o].childInputs;
      }
    }
    forall k | 0 <= k < |r.inputs| && r.inputs[k].parent.Some?
      ensures r.inputs[k].parent.value < |r.outputs| && k in r.outputs[r.inputs[k].parent.value].childInputs
    {
      if k != i {
        var x := net.inputs[k].parent.value;
        assert k in net.outputs[x].childInputs;
      } else {
        assert r.outputs[o].childInputs[|net.outputs[o].childInputs|] == i;
      }
    }
    forall x | 0 <= x < |r.outputs| && r.outputs[x].allocatingInput.Some?
      ensures r.outputs[x].allocatingInput.value in r.outputs[x].childInputs
    {
      if x == o {
        assert r.outputs[o].childInputs[|net.outputs[o].childInputs|] == i;
        if !b.ins[i].allocatable {
          var a := net.outputs[o].allocatingInput.value;
          assert a in net.outputs[o].childInputs;
        }
      }
    }
  }

  /** A connection from a lower-ranked node to a higher-ranked one keeps
      the net acyclic under the same ranking. */
  lemma ConnectKeepsRanked(b: Board, o: nat, i: nat, rank: seq<nat>)
    requires Fit(b) && o < |b.net.outputs| && i < |b.net.inputs| && Ranked(b.net, rank)
    requires rank[b.net.outputs[o].node] < rank[b.net.inputs[i].node]
    requires Connect(b, o, i).Ok?
    ensures Ranked(Connect(b, o, i).value.net, rank)
  {
    var net := b.net;
    var r := Connect(b, o, i).value.net;
    forall x, q | 0 <= x < |r.outputs| && 0 <= q < |r.outputs[x].childInputs|
      ensures rank[r.outputs[x].node] < rank[r.inputs[r.outputs[x].childInputs[q]].node]
    {
      if x != o || q < |net.outputs[o].childInputs| {
        assert rank[net.outputs[x].node] < rank[net.inputs[net.outputs[x].childInputs[q]].node];
      }
    }
  }

  /** A net whose only output feeds input 0 of node 1, and a second,
      unconnected output of node 0. */
  function Example(): (b: Board)
    ensures Fit(b) && Linked(b.net)
  {
    var n0 := NodeRec("a", Edges.Empty, Edges.Empty, false, []);
    var n1 := NodeRec("b", Edges.Empty, Edges.Empty, false, []);
    var f := InitialFlags(false);
    var dd := DataDescriptor.New(None, None, None, None);
    Board(
      Net([n0, n1], [InputRec("x", 1, Some(0), None)],
          [OutputRec("p", 0, [0], None, None), OutputRec("q", 0, [], None, None)]),
      [InState(false, None, false, dd)],
      [OutState(true, None, false, false, dd), OutState(true, None, false, false, dd)],
      [f, f], [InputStrategy.Default, InputStrategy.Default])
  }

  /** Connecting the second output to the already bound input: the code as
      written raises ReconnectionError after the output has recorded the
      input, so the output lists a child whose parent is another output;
      the checked connection refuses without a change. */
  lemma ConnectAsWrittenDangling()
    ensures var b := Example();
            var r := ConnectAsWritten(b, 1, 0);
            r.1 == Fail(ReconnectionError) && !Linked(r.0.net) &&
            Connect(b, 1, 0) == Err(ReconnectionError)
  {
    ExampleChecks();
    AsWrittenOnExample();
  }

  /** What the code as written leaves behind on the example net. */
  lemma AsWrittenOnExample()
    ensures var r := ConnectAsWritten(Example(), 1, 0);
            r.1 == Fail(ReconnectionError) &&
            |r.0.net.outputs| == 2 && |r.0.net.inputs| == 1 &&
            r.0.net.outputs[1].childInputs == [0] && r.0.net.inputs[0].parent == Some(0)
  {
    ExampleChecks();
  }

  /** On the example net, connecting output 1 to input 0 passes the checks
      made before the first change and fails the parent check. */
  lemma ExampleChecks()
    ensures ConnectChecks(Example(), 1, 0).Pass?
    ensures ParentChecks(Example(), 0) == Fail(ReconnectionError)
    ensures !InClosed(Example(), 0) && InputConnected(Example().net, 0)
  {
  }

  // ---------------------------------------------------------------------
  // Child outputs

  /** An input's child output names the input as its parent input, and an
      output's parent input names the output as its child output. */
  predicate Paired(net: Net)
  {
    (forall i :: 0 <= i < |net.inputs| && net.inputs[i].child.Some? ==>
       net.inputs[i].child.value < |net.outputs| && net.outputs[net.inputs[i].child.value].parentInput == Some(i)) &&
    (forall o :: 0 <= o < |net.outputs| && net.outputs[o].parentInput.Some? ==>
       net.outputs[o].parentInput.value < |net.inputs| && net.inputs[net.outputs[o].parentInput.value].child == Some(o))
  }

  /** `Input.set_child_output(o, force_taint)`: an input of a closed node
      refuses with ClosedGraphError; a second child output is refused with
      ReconnectionError unless forced; otherwise the input takes `o` as its
      child output and `o` takes the input as its parent input. */
  function SetChildOutput(b: Board, i: nat, o: nat, force: bool): (r: Result<Net>)
    requires Fit(b) && i < |b.net.inputs| && o < |b.net.outputs|
    ensures InClosed(b, i) ==> r == Err(ClosedGraphError)
    ensures !InClosed(b, i) && b.net.inputs[i].child.Some? && !force ==> r == Err(ReconnectionError)
    ensures r.Ok? <==> !InClosed(b, i) && (b.net.inputs[i].child.None? || force)
    ensures r.Ok? ==> |r.value.inputs| == |b.net.inputs| && |r.value.outputs| == |b.net.outputs|
    ensures r.Ok? ==> r.value.inputs[i].child == Some(o) && r.value.outputs[o].parentInput == Some(i)
    ensures r.Ok? ==> r.value.nodes == b.net.nodes &&
                      (forall k :: 0 <= k < |b.net.inputs| && k != i ==> r.value.inputs[k] == b.net.inputs[k]) &&
                      (forall k :: 0 <= k < |b.net.outputs| && k != o ==> r.value.outputs[k] == b.net.outputs[k])
  {
    if InClosed(b, i) then Err(ClosedGraphError)
    else if b.net.inputs[i].child.Some? && !force then Err(ReconnectionError)
    else
      var net1 := b.net.(inputs := b.net.inputs[i := b.net.inputs[i].(child := Some(o))]);
      Ok(net1.(outputs := net1.outputs[o := net1.outputs[o].(parentInput := Some(i))]))
  }

  /** Pairing an input that has no child output with an output that has
      no parent input keeps every pairing in agreement. */
  lemma SetChildOutputKeepsPaired(b: Board, i: nat, o: nat, force: bool)
    requires Fit(b) && i < |b.net.inputs| && o < |b.net.outputs| && Paired(b.net)
    requires b.net.inputs[i].child.None? && b.net.outputs[o].parentInput.None?
    requires SetChildOutput(b, i, o, force).Ok?
    ensures Paired(SetChildOutput(b, i, o, force).value)
  {
  }

  // ---------------------------------------------------------------------
  // New ports

  /** The state of an input built with no data options. */
  function FreshIn(): (s: InState)
    ensures !s.allocatable && s.ownData.None? && !s.ownsBuffer
  {
    InState(false, None, false, DataDescriptor.New(None, None, None, None))
  }

  /** The state of an output built with no data options. */
  function FreshOut(): (s: OutState)
    ensures s.allocatable && s.data.None? && !s.ownsBuffer && !s.forbidRealloc
  {
    OutState(true, None, false, false, DataDescriptor.New(None, None, None, None))
  }

  /** `Node._add_input(name, positional, keyword, child_output)`: a name the
      node already knows is refused with ReconnectionError.  Otherwise a new
      input is built; given a child output it pairs with it at once; the
      input is then added to the node's container (which refuses an empty
      name, or neither positional nor keyword, with RuntimeError, leaving the
      built input behind, unlisted); a listed input marks the node as no
      longer allocated.  The result is the new input's number. */
  function AddInputRaw(b: Board, n: nat, name: string, positional: bool, keyword: bool, child: Option<nat>): (r: (Board, Result<nat>))
    requires Fit(b) && n < |b.net.nodes| && (child.Some? ==> child.value < |b.net.outputs|)
    ensures Fit(r.0)
    ensures Edges.Contains(b.net.nodes[n].ins, name) ==> r == (b, Err(ReconnectionError))
    ensures !Edges.Contains(b.net.nodes[n].ins, name) ==>
      r.0.net.inputs == b.net.inputs + [InputRec(name, n, None, child)] && r.0.ins == b.ins + [FreshIn()] &&
      r.0.net.outputs == (if child.Some? then b.net.outputs[child.value := b.net.outputs[child.value].(parentInput := Some(|b.net.inputs|))]
                          else b.net.outputs) &&
      r.0.outs == b.outs && r.0.strategies == b.strategies && |r.0.net.nodes| == |b.net.nodes|
    ensures r.1.Err? && !Edges.Contains(b.net.nodes[n].ins, name) ==> r.1.error == RuntimeError && r.0.net.nodes == b.net.nodes && r.0.flags == b.flags
    ensures r.1.Ok? ==>
      r.1.value == |b.net.inputs| && !r.0.flags[n].isAllocated && r.0.flags == b.flags[n := r.0.flags[n]] &&
      Edges.Contains(r.0.net.nodes[n].ins, name) && r.0.net.nodes[n].ins.all.m[name] == Edges.Single(r.1.value) &&
      r.0.net.nodes == b.net.nodes[n := r.0.net.nodes[n]] && r.0.net.nodes[n].outs == b.net.nodes[n].outs &&
      (positional ==> r.0.net.nodes[n].ins.posList == b.net.nodes[n].ins.posList + [Edges.Single(r.1.value)]) &&
      (!positional ==> r.0.net.nodes[n].ins.posList == b.net.nodes[n].ins.posList) &&
      (keyword ==> r.0.net.nodes[n].ins.kw.m == b.net.nodes[n].ins.kw.m[name := Edges.Single(r.1.value)])
  {
    var e := b.net.nodes[n].ins;
    if Edges.Contains(e, name) then (b, Err(ReconnectionError))
    else
      var k := |b.net.inputs|;
      var b1 := WithInputRec(b, n, name, child);
      InputRecFit(b, n, name, child);
      match Edges.Add(e, Edges.Port(name, k), None, positional, keyword, false)
      case Err(err) => (b1, Err(err))
      case Ok(e1) =>
        var net2 := b1.net.(nodes := b1.net.nodes[n := b1.net.nodes[n].(ins := e1)]);
        assert e1.all.m == e.all.m[name := Edges.Single(k)];
        assert forall key :: key in e1.all.keys ==> key == name || key in e.all.keys;
        InputEdgeFit(b1, n, name, k, e1);
        (b1.(net := net2, flags := b.flags[n := b.flags[n].(isAllocated := false)]), Ok(k))
  }

  /** The board with a new input record of node `n` (its data fresh),
      linked to `child` when given. */
  function WithInputRec(b: Board, n: nat, name: string, child: Option<nat>): Board
    requires child.Some? ==> child.value < |b.net.outputs|
  {
    var k := |b.net.inputs|;
    var outs1 := if child.Some? then b.net.outputs[child.value := b.net.outputs[child.value].(parentInput := Some(k))] else b.net.outputs;
    b.(net := b.net.(inputs := b.net.inputs + [InputRec(name, n, None, child)], outputs := outs1), ins := b.ins + [FreshIn()])
  }

  lemma InputRecFit(b: Board, n: nat, name: string, child: Option<nat>)
    requires Fit(b) && n < |b.net.nodes| && (child.Some? ==> child.value < |b.net.outputs|)
    ensures Fit(WithInputRec(b, n, name, child))
  {
    var net1 := WithInputRec(b, n, name, child).net;
    forall x | 0 <= x < |net1.nodes|
      ensures OutsOf(net1, x) && InsOf(net1, x) && AllOutsOf(net1, x)
    {
      assert OutsOf(b.net, x) && InsOf(b.net, x) && AllOutsOf(b.net, x);
    }
  }

  /** Giving node `n` an inputs container that adds `name` for its input
      `k` keeps the board consistent. */
  lemma InputEdgeFit(b: Board, n: nat, name: string, k: nat, e1: Edges.Edges)
    requires Fit(b) && n < |b.net.nodes| && k < |b.net.inputs| && b.net.inputs[k].node == n
    requires e1.all.m == b.net.nodes[n].ins.all.m[name := Edges.Single(k)]
    requires forall key :: key in e1.all.keys ==> key == name || key in b.net.nodes[n].ins.all.keys
    ensures Fit(b.(net := b.net.(nodes := b.net.nodes[n := b.net.nodes[n].(ins := e1)])))
  {
    var net2 := b.net.(nodes := b.net.nodes[n := b.net.nodes[n].(ins := e1)]);
    forall x | 0 <= x < |net2.nodes|
      ensures OutsOf(net2, x) && InsOf(net2, x) && AllOutsOf(net2, x)
    {
      assert OutsOf(b.net, x) && InsOf(b.net, x) && AllOutsOf(b.net, x);
      if x == n {
        forall key | key in e1.all.keys
          ensures key in e1.all.m && IsPort(net2, e1.all.m[key], n, true)
        {
          if key != name {
            assert key in b.net.nodes[n].ins.all.keys;
          }
        }
      }
    }
  }

  /** `Node._add_output(name, positional, keyword)`: a name the node already
      knows is refused with ReconnectionError; otherwise a new output with
      no data is added to the node's container and the node is marked as no
      longer allocated.  The result is the new output's number. */
  function AddOutputRaw(b: Board, n: nat, name: string, positional: bool, keyword: bool): (r: (Board, Result<nat>))
    requires Fit(b) && n < |b.net.nodes|
    ensures Fit(r.0)
    ensures r.1.Err? ==> r.0 == b
    ensures Edges.Contains(b.net.nodes[n].outs, name) ==> r == (b, Err(ReconnectionError))
    ensures r.1.Err? && !Edges.Contains(b.net.nodes[n].outs, name) ==> r.1.error == RuntimeError
    ensures r.1.Ok? ==>
      r.1.value == |b.net.outputs| &&
      r.0.net.outputs == b.net.outputs + [OutputRec(name, n, [], None, None)] && r.0.outs == b.outs + [FreshOut()] &&
      r.0.net.inputs == b.net.inputs && r.0.ins == b.ins && r.0.strategies == b.strategies &&
      !r.0.flags[n].isAllocated && r.0.flags == b.flags[n := r.0.flags[n]] &&
      Edges.Contains(r.0.net.nodes[n].outs, name) && r.0.net.nodes[n].outs.all.m[name] == Edges.Single(r.1.value) &&
      r.0.net.nodes == b.net.nodes[n := r.0.net.nodes[n]] && r.0.net.nodes[n].ins == b.net.nodes[n].ins &&
      (positional ==> r.0.net.nodes[n].outs.posList == b.net.nodes[n].outs.posList + [Edges.Single(r.1.value)]) &&
      (!positional ==> r.0.net.nodes[n].outs.posList == b.net.nodes[n].outs.posList)
  {
    var e := b.net.nodes[n].outs;
    if Edges.Contains(e, name) then (b, Err(ReconnectionError))
    else
      var k := |b.net.outputs|;
      match Edges.Add(e, Edges.Port(name, k), None, positional, keyword, false)
      case Err(err) => (b, Err(err))
      case Ok(e1) =>
        var net1 := b.net.(outputs := b.net.outputs + [OutputRec(name, n, [], None, None)]);
        var net2 := net1.(nodes := net1.nodes[n := net1.nodes[n].(outs := e1)]);
        assert e1.all.m == e.all.m[name := Edges.Single(k)];
        assert forall key :: key in e1.all.keys ==> key == name || key in e.all.keys;
        assert forall j :: 0 <= j < |e1.posList| ==> (j < |e.posList| && e1.posList[j] == e.posList[j]) || e1.posList[j] == Edges.Single(k);
        OutputEdgeFit(b, n, name, e1);
        (b.(net := net2, outs := b.outs + [FreshOut()], flags := b.flags[n := b.flags[n].(isAllocated := false)]), Ok(k))
  }

  /** Adding output record `name` of node `n` and giving the node an outputs
      container that adds it keeps the board consistent. */
  lemma OutputEdgeFit(b: Board, n: nat, name: string, e1: Edges.Edges)
    requires Fit(b) && n < |b.net.nodes|
    requires var e := b.net.nodes[n].outs;
             var k := |b.net.outputs|;
             e1.all.m == e.all.m[name := Edges.Single(k)] &&
             (forall key :: key in e1.all.keys ==> key == name || key in e.all.keys) &&
             (forall j :: 0 <= j < |e1.posList| ==> (j < |e.posList| && e1.posList[j] == e.posList[j]) || e1.posList[j] == Edges.Single(k))
    ensures var net1 := b.net.(outputs := b.net.outputs + [OutputRec(name, n, [], None, None)]);
            Fit(b.(net := net1.(nodes := net1.nodes[n := net1.nodes[n].(outs := e1)]), outs := b.outs + [FreshOut()]))
  {
    var e := b.net.nodes[n].outs;
    var net1 := b.net.(outputs := b.net.outputs + [OutputRec(name, n, [], None, None)]);
    var net2 := net1.(nodes := net1.nodes[n := net1.nodes[n].(outs := e1)]);
    forall x | 0 <= x < |net2.nodes|
      ensures OutsOf(net2, x) && InsOf(net2, x) && AllOutsOf(net2, x)
    {
      assert OutsOf(b.net, x) && InsOf(b.net, x) && AllOutsOf(b.net, x);
      if x == n {
        forall key | key in e1.all.keys
          ensures key in e1.all.m && IsPort(net2, e1.all.m[key], n, false)
        {
          if key != name {
            assert key in e.all.keys;
          }
        }
        forall j | 0 <= j < |e1.posList|
          ensures IsPort(net2, e1.posList[j], n, false)
        {
          if j < |e.posList| && e1.posList[j] == e.posList[j] {
            assert IsPort(b.net, e.posList[j], n, false);
          }
        }
      }
    }
  }
}
