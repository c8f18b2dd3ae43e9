/** The link structure of a program: nodes, their inputs and outputs, and
    the connections between them (src/dagflow/core/node.py,
    src/dagflow/core/input.py, src/dagflow/core/output.py).

    Nodes, inputs and outputs are numbered; each refers to the others by
    number, and a `Net` holds all three tables.  The code does not guard
    against cycles: the walks over a net are given a `rank` under which
    every connection goes from a lower to a higher rank. */
module Links {
  import opened Base
  import Edges

  /** A node: its name, its input and output containers (holding port
      numbers), the `immediate` option and the allowed keyword inputs. */
  datatype NodeRec = NodeRec(
    name: string,
    ins: Edges.Edges,
    outs: Edges.Edges,
    immediate: bool,
    allowedKw: seq<string>)

  /** An input: its node, the output feeding it, and its child output (an
      output of the same node paired with it). */
  datatype InputRec = InputRec(name: string, node: nat, parent: Option<nat>, child: Option<nat>)

  /** An output: its node, the inputs it feeds in connection order, its
      parent input, and its allocating child input. */
  datatype OutputRec = OutputRec(
    name: string,
    node: nat,
    childInputs: seq<nat>,
    parentInput: Option<nat>,
    allocatingInput: Option<nat>)

  datatype Net = Net(nodes: seq<NodeRec>, inputs: seq<InputRec>, outputs: seq<OutputRec>)

  predicate Below(h: Option<nat>, n: nat)
  {
    h.Some? ==> h.value < n
  }

  /** A container item of node `n`: one input (or output) of that node. */
  predicate IsPort(net: Net, l: Edges.Limb, n: nat, isInput: bool)
  {
    l.Single? &&
    if isInput then 0 <= l.handle < |net.inputs| && net.inputs[l.handle].node == n
    else 0 <= l.handle < |net.outputs| && net.outputs[l.handle].node == n
  }

  /** The positional outputs of node `n` are outputs of `n`. */
  predicate OutsOf(net: Net, n: nat)
    requires n < |net.nodes|
  {
    forall j :: 0 <= j < |net.nodes[n].outs.posList| ==> IsPort(net, net.nodes[n].outs.posList[j], n, false)
  }

  /** Every name of the inputs container of node `n`, in insertion order,
      names an input of `n`. */
  predicate InsOf(net: Net, n: nat)
    requires n < |net.nodes|
  {
    var e := net.nodes[n].ins.all;
    forall k :: k in e.keys ==> k in e.m && IsPort(net, e.m[k], n, true)
  }

  /** Every name of the outputs container of node `n` names an output of `n`. */
  predicate AllOutsOf(net: Net, n: nat)
    requires n < |net.nodes|
  {
    var e := net.nodes[n].outs.all;
    forall k :: k in e.keys ==> k in e.m && IsPort(net, e.m[k], n, false)
  }

  /** Every number the walks follow is in range, and the containers they
      read hold their own node's ports. */
  predicate Wired(net: Net)
  {
    (forall n :: 0 <= n < |net.nodes| ==> OutsOf(net, n) && InsOf(net, n) && AllOutsOf(net, n)) &&
    (forall i :: 0 <= i < |net.inputs| ==>
       net.inputs[i].node < |net.nodes| && Below(net.inputs[i].parent, |net.outputs|)) &&
    (forall o :: 0 <= o < |net.outputs| ==>
       net.outputs[o].node < |net.nodes| && Below(net.outputs[o].allocatingInput, |net.inputs|) &&
       forall q :: 0 <= q < |net.outputs[o].childInputs| ==> net.outputs[o].childInputs[q] < |net.inputs|)
  }

  /** Every connection goes up in rank: the net is acyclic. */
  predicate Ranked(net: Net, rank: seq<nat>)
  {
    Wired(net) && |rank| == |net.nodes| &&
    (forall k :: 0 <= k < |rank| ==> rank[k] < |rank|) &&
    (forall o, q :: 0 <= o < |net.outputs| && 0 <= q < |net.outputs[o].childInputs| ==>
       rank[net.outputs[o].node] < rank[net.inputs[net.outputs[o].childInputs[q]].node]) &&
    (forall i :: 0 <= i < |net.inputs| && net.inputs[i].parent.Some? ==>
       rank[net.outputs[net.inputs[i].parent.value].node] < rank[net.inputs[i].node])
  }

  /** A net together with a ranking of its nodes. */
  datatype Ranking = Ranking(net: Net, rank: seq<nat>)

  /** A net whose connections all go up in rank: the walks below terminate
      on it. */
  type Acyclic = a: Ranking | Ranked(a.net, a.rank) witness Ranking(Net([], [], []), [])

  /** The `j`-th positional output of node `n`. */
  function OutAt(net: Net, n: nat, j: nat): (o: nat)
    requires Wired(net) && n < |net.nodes| && j < |net.nodes[n].outs.posList|
    ensures o < |net.outputs| && net.outputs[o].node == n
  {
    assert OutsOf(net, n) && IsPort(net, net.nodes[n].outs.posList[j], n, false);
    net.nodes[n].outs.posList[j].handle
  }

  /** `inputs.iter_all()` of node `n`: its input numbers in insertion order. */
  function InputsOf(net: Net, n: nat): (r: seq<nat>)
    requires Wired(net) && n < |net.nodes|
    ensures forall j :: 0 <= j < |r| ==> r[j] < |net.inputs| && net.inputs[r[j]].node == n
  {
    var e := net.nodes[n].ins.all;
    assert InsOf(net, n);
    var ls := Edges.ValuesOf(e.keys, e.m);
    assert forall j :: 0 <= j < |ls| ==> IsPort(net, ls[j], n, true);
    seq(|ls|, j requires 0 <= j < |ls| => ls[j].handle)
  }

  /** `outputs.iter_all()` of node `n`: its output numbers in insertion order. */
  function OutputsOf(net: Net, n: nat): (r: seq<nat>)
    requires Wired(net) && n < |net.nodes|
    ensures forall j :: 0 <= j < |r| ==> r[j] < |net.outputs| && net.outputs[r[j]].node == n
  {
    var e := net.nodes[n].outs.all;
    assert AllOutsOf(net, n);
    var ls := Edges.ValuesOf(e.keys, e.m);
    assert forall j :: 0 <= j < |ls| ==> IsPort(net, ls[j], n, false);
    seq(|ls|, j requires 0 <= j < |ls| => ls[j].handle)
  }

  /** The node that input `i` belongs to. */
  function InputNode(net: Net, i: nat): nat
    requires i < |net.inputs|
  {
    net.inputs[i].node
  }

  /** The node feeding input `i`, when it is connected. */
  function ParentNode(net: Net, i: nat): (p: Option<nat>)
    requires Wired(net) && i < |net.inputs|
    ensures p.Some? ==> p.value < |net.nodes|
  {
    if net.inputs[i].parent.Some? then Some(net.outputs[net.inputs[i].parent.value].node) else None
  }

  /** Every connected input's parent node is ranked below the input's node. */
  lemma ParentBelow(a: Acyclic, i: nat)
    requires i < |a.net.inputs| && ParentNode(a.net, i).Some?
    ensures a.rank[ParentNode(a.net, i).value] < a.rank[a.net.inputs[i].node]
  {
  }
}
