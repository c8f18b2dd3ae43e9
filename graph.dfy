/** The graph object (dagflow/core/graph.py): the list of its nodes, the
    nodes added since it was last closed, its `closed` flag, closing and
    opening all of its nodes, and the module-level stack of graphs entered
    as contexts.  The graph registry of its base class
    (dagflow/core/graph_base.py) is not part of this model: registering a
    node is taken to append it to both lists, and closing to empty the list
    of new nodes. */
module Graphs {
  import opened Base
  import opened Links
  import opened NodeFlags
  import opened TaintWalk
  import opened UpdateWalk
  import opened AllocWalk
  import opened CloseWalk
  import opened OpenWalk
  import Edges
  import Engine

  /** The graph's own fields. */
  datatype GraphState = GraphState(nodes: seq<nat>, newNodes: seq<nat>, closed: bool, nodesClosed: bool,
                                   closeOnExit: bool, strict: bool)

  /** Every node the graph lists is one of the `count` nodes of the net. */
  predicate Within(s: GraphState, count: nat)
  {
    (forall k :: 0 <= k < |s.nodes| ==> s.nodes[k] < count) &&
    (forall k :: 0 <= k < |s.newNodes| ==> s.newNodes[k] < count)
  }

  /** `Graph.add_node`: a closed graph refuses with ClosedGraphError; a
      node whose graph is already set refuses with DagflowError (in this
      model: a node the graph already lists); otherwise the node is
      registered. */
  function WithNode(s: GraphState, n: nat): (r: (GraphState, Outcome))
    ensures s.closed ==> r == (s, Fail(ClosedGraphError))
    ensures !s.closed && n in s.nodes ==> r == (s, Fail(DagflowError))
    ensures r.1.Fail? ==> r.0 == s
    ensures r.1.Pass? <==> !s.closed && n !in s.nodes
    ensures r.1.Pass? ==> r.0 == s.(nodes := s.nodes + [n], newNodes := s.newNodes + [n])
  {
    if s.closed then (s, Fail(ClosedGraphError))
    else if n in s.nodes then (s, Fail(DagflowError))
    else (s.(nodes := s.nodes + [n], newNodes := s.newNodes + [n]), Pass)
  }

  /** Adding nodes never lists a node twice, and never lists a node that
      does not exist. */
  lemma AddNodeKeeps(s: GraphState, n: nat, count: nat)
    requires Distinct(s.nodes) && Within(s, count) && n < count
    ensures Distinct(WithNode(s, n).0.nodes) && Within(WithNode(s, n).0, count)
  {
    var r := WithNode(s, n).0;
    if r != s {
      forall a, b | 0 <= a < b < |r.nodes| ensures r.nodes[a] != r.nodes[b] {
        if b == |s.nodes| {
          assert r.nodes[a] == s.nodes[a];
        }
      }
    }
  }

  /** `Graph.add_nodes`: a closed graph refuses; otherwise the nodes are
      added in order, stopping at the first refusal. */
  function WithNodes(s: GraphState, ns: seq<nat>, j: nat): (r: (GraphState, Outcome))
    requires j <= |ns|
    ensures s.closed ==> r == (s, Fail(ClosedGraphError))
    ensures r.1.Pass? ==> r.0.nodes == s.nodes + ns[j..]
    decreases |ns| - j
  {
    if s.closed then (s, Fail(ClosedGraphError))
    else if j == |ns| then (s, Pass)
    else
      var a := WithNode(s, ns[j]);
      if a.1.Fail? then a
      else
        var r := WithNodes(a.0, ns, j + 1);
        assert ns[j..] == [ns[j]] + ns[j + 1..];
        r
  }

  /** The nodes `close` works on: the new ones once the graph's nodes have
      been closed, unless forced. */
  function Todo(s: GraphState, force: bool): seq<nat>
  {
    if !force && s.nodesClosed then s.newNodes else s.nodes
  }

  /** The type pass of `Graph.close` over `todo` from the `j`-th node on:
      each open node updates its types with its parents; a ClosingError is
      swallowed unless `strict`, any other error stops the pass. */
  function UpdAll(g: Acyclic, tf: seq<Outcome>, todo: seq<nat>, j: nat, strict: bool, f: seq<Flags>): (r: (seq<Flags>, Outcome))
    requires |f| == |g.net.nodes| && |tf| == |g.net.nodes| && j <= |todo|
    requires forall k :: 0 <= k < |todo| ==> todo[k] < |g.net.nodes|
    ensures Keeps(f, r.0)
    ensures r.1.Fail? ==> strict || r.1.error != ClosingError
    decreases |todo| - j
  {
    if j == |todo| then (f, Pass)
    else if f[todo[j]].closed then UpdAll(g, tf, todo, j + 1, strict, f)
    else
      UpdKeeps(g, todo[j], true, tf, f);
      var u := UpdNode(g, todo[j], true, tf, f);
      if u.1.Fail? && (strict || u.1.error != ClosingError) then u
      else UpdAll(g, tf, todo, j + 1, strict, u.0)
  }

  /** The allocation pass of `Graph.close`, with the same error policy. */
  function AllocAll(g: Acyclic, todo: seq<nat>, j: nat, strict: bool, w: World): (r: (World, Outcome))
    requires Sized(g.net, w) && j <= |todo|
    requires forall k :: 0 <= k < |todo| ==> todo[k] < |g.net.nodes|
    ensures Sized(g.net, r.0) && Keeps(w.flags, r.0.flags)
    ensures r.1.Fail? ==> strict || r.1.error != ClosingError
    decreases |todo| - j
  {
    if j == |todo| then (w, Pass)
    else if w.flags[todo[j]].closed then AllocAll(g, todo, j + 1, strict, w)
    else
      AllocKeeps(g, todo[j], true, w);
      var a := AllocNode(g, todo[j], true, w);
      if a.1.Err? && (strict || a.1.error != ClosingError) then (a.0, Fail(a.1.error))
      else AllocAll(g, todo, j + 1, strict, a.0)
  }

  /** The close loop of `Graph.close` as written: each node is closed
      (strictly, with its parents and children) and its result becomes the
      graph's `closed`; a swallowed ClosingError leaves `closed` as the
      previous node set it; a False stops the loop, and a loop that runs
      to its end sets `closed`.  The result is the final `closed` and the
      loop's outcome. */
  function CloseAllAsWritten(g: Acyclic, tf: seq<Outcome>, todo: seq<nat>, j: nat, strict: bool, closed: bool, w: World): (r: (World, bool, Outcome))
    requires Sized(g.net, w) && |tf| == |g.net.nodes| && j <= |todo|
    requires forall k :: 0 <= k < |todo| ==> todo[k] < |g.net.nodes|
    ensures Sized(g.net, r.0) && StaysClosed(w.flags, r.0.flags)
    ensures ClosedAllocated(w.flags) ==> ClosedAllocated(r.0.flags)
    decreases |todo| - j
  {
    if j == |todo| then (w, true, Pass)
    else
      var c := CloseNode(g, todo[j], true, true, true, tf, w);
      if c.1.Err? && (strict || c.1.error != ClosingError) then (c.0, closed, Fail(c.1.error))
      else
        var closed1 := if c.1.Ok? then c.1.value else closed;
        if !closed1 then (c.0, false, Pass)
        else CloseAllAsWritten(g, tf, todo, j + 1, strict, closed1, c.0)
  }

  /** The close loop with a swallowed ClosingError counted as a node that
      did not close: the loop stops and the graph stays open.  An error
      that escapes leaves `closed` as it was. */
  function CloseAll(g: Acyclic, tf: seq<Outcome>, todo: seq<nat>, j: nat, strict: bool, closed: bool, w: World): (r: (World, bool, Outcome))
    requires Sized(g.net, w) && |tf| == |g.net.nodes| && j <= |todo|
    requires forall k :: 0 <= k < |todo| ==> todo[k] < |g.net.nodes|
    ensures Sized(g.net, r.0) && StaysClosed(w.flags, r.0.flags)
    ensures ClosedAllocated(w.flags) ==> ClosedAllocated(r.0.flags)
    ensures r.2.Fail? ==> strict || r.2.error != ClosingError
    ensures r.1 && r.2.Pass? ==> forall k :: j <= k < |todo| ==> r.0.flags[todo[k]].closed
    decreases |todo| - j
  {
    if j == |todo| then (w, true, Pass)
    else
      var c := CloseNode(g, todo[j], true, true, true, tf, w);
      if c.1.Err? && (strict || c.1.error != ClosingError) then (c.0, closed, Fail(c.1.error))
      else if c.1.Err? || !c.1.value then (c.0, false, Pass)
      else
        var r := CloseAll(g, tf, todo, j + 1, strict, true, c.0);
        assert c.0.flags[todo[j]].closed;
        r
  }

  /** One turn of the close loop. */
  lemma CloseAllStep(g: Acyclic, tf: seq<Outcome>, todo: seq<nat>, j: nat, strict: bool, closed: bool, w: World)
    requires Sized(g.net, w) && |tf| == |g.net.nodes| && j < |todo|
    requires forall k :: 0 <= k < |todo| ==> todo[k] < |g.net.nodes|
    ensures var c := CloseNode(g, todo[j], true, true, true, tf, w);
            var r := CloseAll(g, tf, todo, j, strict, closed, w);
            (c.1.Err? && (strict || c.1.error != ClosingError) ==> r == (c.0, closed, Fail(c.1.error))) &&
            (c.1.Err? && !strict && c.1.error == ClosingError ==> r == (c.0, false, Pass)) &&
            (c.1.Ok? && !c.1.value ==> r == (c.0, false, Pass)) &&
            (c.1.Ok? && c.1.value ==> r == CloseAll(g, tf, todo, j + 1, strict, true, c.0))
  {
  }

  /** The three passes of `Graph.close` over `todo`, starting from the
      graph's `closed`: the result is the world they leave, the graph's
      `closed` afterwards and the error that escaped, if any. */
  function ClosePasses(g: Acyclic, tf: seq<Outcome>, todo: seq<nat>, strict: bool, closed: bool, w: World): (r: (World, bool, Outcome))
    requires Sized(g.net, w) && |tf| == |g.net.nodes|
    requires forall k :: 0 <= k < |todo| ==> todo[k] < |g.net.nodes|
    ensures Sized(g.net, r.0) && StaysClosed(w.flags, r.0.flags)
    ensures ClosedAllocated(w.flags) ==> ClosedAllocated(r.0.flags)
    ensures r.2.Fail? ==> strict || r.2.error != ClosingError
    ensures r.1 && r.2.Pass? ==> forall k :: 0 <= k < |todo| ==> r.0.flags[todo[k]].closed
  {
    var u := UpdAll(g, tf, todo, 0, strict, w.flags);
    var w1 := w.(flags := u.0);
    if u.1.Fail? then (w1, closed, u.1)
    else
      var a := AllocAll(g, todo, 0, strict, w1);
      if a.1.Fail? then (a.0, closed, a.1)
      else CloseAll(g, tf, todo, 0, strict, closed, a.0)
  }

  /** `Graph.close(strict, force)`: a closed graph is done unless forced
      (forcing also makes every node be processed).  The type pass, the
      allocation pass and the close loop run over the nodes to process;
      then the list of new nodes is emptied and the nodes count as closed.
      A strict close that left the graph open raises UnclosedGraphError;
      the result is the graph's `closed`. */
  function GraphClose(g: Acyclic, tf: seq<Outcome>, s: GraphState, w: World, strict: bool, force: bool): (r: (GraphState, World, Result<bool>))
    requires Sized(g.net, w) && |tf| == |g.net.nodes| && Within(s, |g.net.nodes|)
    ensures Sized(g.net, r.1) && StaysClosed(w.flags, r.1.flags) && Within(r.0, |g.net.nodes|)
    ensures ClosedAllocated(w.flags) ==> ClosedAllocated(r.1.flags)
    ensures !force && s.closed ==> r == (s, w, Ok(true))
    ensures r.0.nodes == s.nodes && r.0.closeOnExit == s.closeOnExit && r.0.strict == s.strict
    ensures strict && r.2.Ok? ==> r.2.value
    ensures force || !s.closed ==> (r.2.Ok? ==> r.0.closed == r.2.value && r.0.newNodes == [] && r.0.nodesClosed)
    ensures (force || !s.closed) && r.2 == Ok(true) ==> forall k :: 0 <= k < |Todo(s, force)| ==> r.1.flags[Todo(s, force)[k]].closed
    ensures r.2.Err? && r.2.error == ClosingError ==> strict
  {
    if !force && s.closed then (s, w, Ok(true))
    else
      var s1 := if force then s.(nodesClosed := false) else s;
      CloseFinish(s1, ClosePasses(g, tf, Todo(s, force), strict, s1.closed, w), strict)
  }

  /** What `close` does after its passes `c`, from the graph state `s1`. */
  function CloseFinish(s1: GraphState, c: (World, bool, Outcome), strict: bool): (r: (GraphState, World, Result<bool>))
    ensures r.1 == c.0 && r.0.nodes == s1.nodes && r.0.closeOnExit == s1.closeOnExit && r.0.strict == s1.strict
    ensures r.0.newNodes == [] || r.0.newNodes == s1.newNodes
    ensures r.2.Ok? <==> c.2.Pass? && (c.1 || !strict)
    ensures r.2.Ok? ==> r.2.value == c.1 && r.0.closed == c.1 && r.0.newNodes == [] && r.0.nodesClosed
    ensures r.2.Err? ==> r.2.error == (if c.2.Fail? then c.2.error else UnclosedGraphError)
  {
    var s2 := s1.(closed := c.1);
    if c.2.Fail? then (s2, c.0, Err(c.2.error))
    else
      var s3 := s2.(newNodes := [], nodesClosed := true);
      if strict && !s3.closed then (s3, c.0, Err(UnclosedGraphError))
      else (s3, c.0, Ok(s3.closed))
  }

  /** A net of two nodes with no ports: node 0 is closed, node 1 is
      invalid and otherwise ready. */
  function TwoNodes(): (g: Acyclic)
  {
    var e := Edges.Empty;
    Ranking(Net([NodeRec("a", e, e, false, []), NodeRec("b", e, e, false, [])], [], []), [0, 0])
  }

  function TwoNodesWorld(): (w: World)
    ensures Sized(TwoNodes().net, w)
  {
    var f := InitialFlags(false).(isAllocated := true, needsReallocation := false, typesTainted := false);
    World([f.(closed := true), f.(invalid := true)], Store([], [], []), [[], []])
  }

  /** A non-strict close of the two nodes: the invalid node raises
      ClosingError, which is swallowed while `closed` still holds the True
      of the first node, so the loop as written runs to its end and reports
      the graph closed with node 1 open.  The checked loop reports it
      open. */
  lemma CloseAllAsWrittenReportsOpenNode()
    ensures var g := TwoNodes();
            var w := TwoNodesWorld();
            var tf := [Pass, Pass];
            var r := CloseAllAsWritten(g, tf, [0, 1], 0, false, false, w);
            r.1 && r.2.Pass? && !r.0.flags[1].closed &&
            !CloseAll(g, tf, [0, 1], 0, false, false, w).1
  {
    var g := TwoNodes();
    var w := TwoNodesWorld();
    var tf := [Pass, Pass];
    assert CloseNode(g, 0, true, true, true, tf, w) == (w, Ok(true));
    assert CloseNode(g, 1, true, true, true, tf, w) == (w, Err(ClosingError));
  }

  /** `node.open(force_taint=ft, open_children=True)` for each node from
      the `j`-th on, as `all(...)` does: a False stops the walk. */
  function OpenAll(g: Acyclic, ns: seq<nat>, j: nat, ft: bool, m: Marks): (r: (Marks, Result<bool>))
    requires Fits(g.net, m) && j <= |ns| && forall k :: 0 <= k < |ns| ==> ns[k] < |g.net.nodes|
    ensures Fits(g.net, r.0) && StaysOpen(g.net, m, r.0)
    decreases |ns| - j
  {
    if j == |ns| then (m, Ok(true))
    else
      var o := OpenNode(g, ns[j], true, ft, m);
      if o.1.Err? then o
      else if !o.1.value then (o.0, Ok(false))
      else OpenAll(g, ns, j + 1, ft, o.0)
  }

  /** `Graph.open(force, close_on_exit, open_nodes)`: `close_on_exit` is
      stored first; an open graph is done unless forced.  With
      `open_nodes` every node is opened with its children and the graph is
      closed unless all of them report open; otherwise the graph is marked
      open.  A graph that is still closed raises ClosedGraphError. */
  function GraphOpen(g: Acyclic, s: GraphState, m: Marks, force: bool, coe: bool, openNodes: bool): (r: (GraphState, Marks, Outcome))
    requires Fits(g.net, m) && Within(s, |g.net.nodes|)
    ensures Fits(g.net, r.1) && StaysOpen(g.net, m, r.1) && Within(r.0, |g.net.nodes|)
    ensures r.0.closeOnExit == coe && r.0.nodes == s.nodes && r.0.newNodes == s.newNodes && r.0.strict == s.strict
    ensures !s.closed && !force ==> r == (s.(closeOnExit := coe), m, Pass)
    ensures !openNodes ==> r.1 == m && !r.0.closed
  {
    var s1 := s.(closeOnExit := coe);
    if !s.closed && !force then (s1, m, Pass)
    else if openNodes then
      var o := OpenAll(g, s.nodes, 0, force, m);
      if o.1.Err? then (s1, o.0, Fail(o.1.error))
      else
        var s2 := s1.(closed := !o.1.value, nodesClosed := false);
        if s2.closed then (s2, o.0, Fail(ClosedGraphError)) else (s2, o.0, Pass)
    else (s1.(closed := false), m, Pass)
  }

  /** Every node opens, so `all(...)` is True. */
  lemma {:induction false} OpenAllOk(g: Acyclic, ns: seq<nat>, j: nat, ft: bool, m: Marks)
    requires Fits(g.net, m) && j <= |ns| && forall k :: 0 <= k < |ns| ==> ns[k] < |g.net.nodes|
    ensures OpenAll(g, ns, j, ft, m).1 == Ok(true)
    ensures forall k :: j <= k < |ns| ==> !OpenAll(g, ns, j, ft, m).0.flags[ns[k]].closed
    decreases |ns| - j
  {
    if j < |ns| {
      OpenNodeOk(g, ns[j], true, ft, m);
      var o := OpenNode(g, ns[j], true, ft, m);
      OpenAllOk(g, ns, j + 1, ft, o.0);
    }
  }

  /** `Graph.open` never raises: its ClosedGraphError is dead.  Afterwards
      the graph is open, and with `open_nodes` so is every node it lists. */
  lemma GraphOpenOpens(g: Acyclic, s: GraphState, m: Marks, force: bool, coe: bool, openNodes: bool)
    requires Fits(g.net, m) && Within(s, |g.net.nodes|)
    ensures var r := GraphOpen(g, s, m, force, coe, openNodes);
            r.2 == Pass && (s.closed || force ==> !r.0.closed) &&
            (openNodes && (s.closed || force) ==> forall k :: 0 <= k < |s.nodes| ==> !r.1.flags[s.nodes[k]].closed)
  {
    if (s.closed || force) && openNodes {
      OpenAllOk(g, s.nodes, 0, force, m);
    }
  }

  /** `Graph.current()`: the graph entered last, if any. */
  function Current(stack: seq<nat>): (r: Option<nat>)
    ensures r.Some? <==> |stack| > 0
    ensures r.Some? ==> r.value == stack[|stack| - 1]
  {
    if |stack| == 0 then None else Some(stack[|stack| - 1])
  }

  /** The pop of `__exit__`: an empty stack raises IndexError; a top that
      is not the exiting graph is popped all the same and raises
      RuntimeError. */
  function Pop(stack: seq<nat>, id: nat): (r: (seq<nat>, Outcome))
    ensures |stack| == 0 ==> r == (stack, Fail(IndexError))
    ensures |stack| > 0 ==> r.0 == stack[..|stack| - 1]
    ensures |stack| > 0 ==> (r.1.Pass? <==> stack[|stack| - 1] == id)
    ensures r.1.Fail? && |stack| > 0 ==> r.1.error == RuntimeError
  {
    if |stack| == 0 then (stack, Fail(IndexError))
    else (stack[..|stack| - 1], if stack[|stack| - 1] != id then Fail(RuntimeError) else Pass)
  }

  /** Contexts nest: entering a graph makes it the current one, and
      leaving it restores the stack that was there before. */
  lemma EnterThenExit(stack: seq<nat>, id: nat)
    ensures Current(stack + [id]) == Some(id)
    ensures Pop(stack + [id], id) == (stack, Pass)
  {
    assert (stack + [id])[..|stack|] == stack;
  }

  /** Two nested contexts are left in reverse order. */
  lemma NestedContexts(stack: seq<nat>, a: nat, b: nat)
    ensures var p := Pop(stack + [a] + [b], b);
            p.1 == Pass && Current(p.0) == Some(a) && Pop(p.0, a) == (stack, Pass)
  {
    EnterThenExit(stack + [a], b);
    EnterThenExit(stack, a);
  }

  /** `Graph.__exit__(exc)`: the stack is popped; an exception of the
      `with` block is raised again; otherwise a graph set to close on exit
      is closed with its own `strict`. */
  function Exited(g: Acyclic, tf: seq<Outcome>, s: GraphState, w: World, stack: seq<nat>, id: nat, exc: Option<Error>): (r: (GraphState, World, seq<nat>, Outcome))
    requires Sized(g.net, w) && |tf| == |g.net.nodes| && Within(s, |g.net.nodes|)
    ensures Sized(g.net, r.1) && Within(r.0, |g.net.nodes|)
    ensures r.2 == Pop(stack, id).0
    ensures Pop(stack, id).1.Fail? ==> r == (s, w, r.2, Pop(stack, id).1)
    ensures Pop(stack, id).1.Pass? && exc.Some? ==> r == (s, w, r.2, Fail(exc.value))
    ensures Pop(stack, id).1.Pass? && exc.None? && !s.closeOnExit ==> r == (s, w, r.2, Pass)
  {
    var p := Pop(stack, id);
    if p.1.Fail? then (s, w, p.0, p.1)
    else if exc.Some? then (s, w, p.0, Fail(exc.value))
    else if s.closeOnExit then
      var c := GraphClose(g, tf, s, w, s.strict, false);
      (c.0, c.1, p.0, if c.2.Err? then Fail(c.2.error) else Pass)
    else (s, w, p.0, Pass)
  }

  /** The module-level list of graphs entered as contexts. */
  class Contexts {
    var stack: seq<nat>

    constructor()
      ensures stack == []
    {
      stack := [];
    }

    /** `Graph.__enter__`. */
    method Enter(id: nat)
      modifies this
      ensures stack == old(stack) + [id]
    {
      stack := stack + [id];
    }

    /** `Graph.current()`. */
    method CurrentGraph() returns (r: Option<nat>)
      ensures r == Current(stack)
    {
      if |stack| == 0 {
        return None;
      }
      r := Some(stack[|stack| - 1]);
    }

    /** The pop of `Graph.__exit__`. */
    method PopGraph(id: nat) returns (res: Outcome)
      modifies this
      ensures (stack, res) == Pop(old(stack), id)
    {
      if |stack| == 0 {
        return Fail(IndexError);
      }
      var top := stack[|stack| - 1];
      stack := stack[..|stack| - 1];
      res := if top != id then Fail(RuntimeError) else Pass;
    }
  }

  /** A graph over the nodes of one node engine. */
  class Graph {
    const id: nat
    const dag: Engine.Dag
    var nodes: seq<nat>
    var newNodes: seq<nat>
    var closed: bool
    var nodesClosed: bool
    var closeOnExit: bool
    var strict: bool

    function State(): GraphState
      reads this
    {
      GraphState(nodes, newNodes, closed, nodesClosed, closeOnExit, strict)
    }

    /** The graph lists only nodes of its engine, whose own fields agree. */
    predicate Valid()
      reads this, dag
    {
      Within(State(), |dag.nodes|) && dag.Sound()
    }

    /** `Graph(close_on_exit, strict)`: no nodes, open. */
    constructor(id: nat, dag: Engine.Dag, closeOnExit: bool, strict: bool)
      ensures this.id == id && this.dag == dag
      ensures State() == GraphState([], [], false, false, closeOnExit, strict)
    {
      this.id := id;
      this.dag := dag;
      nodes := [];
      newNodes := [];
      closed := false;
      nodesClosed := false;
      this.closeOnExit := closeOnExit;
      this.strict := strict;
    }

    /** `Graph.add_node` for a node `n` of the engine. */
    method AddNode(n: nat) returns (res: Outcome)
      modifies this
      ensures (State(), res) == WithNode(old(State()), n)
    {
      if closed {
        return Fail(ClosedGraphError);
      }
      if n in nodes {
        return Fail(DagflowError);
      }
      nodes := nodes + [n];
      newNodes := newNodes + [n];
      res := Pass;
    }

    /** `Graph.add_nodes`. */
    method AddNodes(ns: seq<nat>) returns (res: Outcome)
      modifies this
      ensures (State(), res) == WithNodes(old(State()), ns, 0)
    {
      if closed {
        return Fail(ClosedGraphError);
      }
      ghost var s0 := State();
      var j := 0;
      while j < |ns|
        invariant 0 <= j <= |ns| && !closed
        invariant WithNodes(s0, ns, 0) == WithNodes(State(), ns, j)
      {
        res := AddNode(ns[j]);
        if res.Fail? {
          return;
        }
        j := j + 1;
      }
      res := Pass;
    }

    /** The type pass of `close`. */
    method UpdateAll(todo: seq<nat>, strict: bool, ghost g: Acyclic) returns (res: Outcome)
      requires g.net == dag.Structure() && dag.Sound() && forall k :: 0 <= k < |todo| ==> todo[k] < |dag.nodes|
      modifies dag`flags
      ensures (dag.flags, res) == UpdAll(g, dag.typeFn, todo, 0, strict, old(dag.flags)) && dag.Sound()
    {
      ghost var f0 := dag.flags;
      var j := 0;
      while j < |todo|
        invariant 0 <= j <= |todo| && dag.Sound()
        invariant UpdAll(g, dag.typeFn, todo, 0, strict, f0) == UpdAll(g, dag.typeFn, todo, j, strict, dag.flags)
      {
        if !dag.flags[todo[j]].closed {
          var u := dag.UpdateTypes(todo[j], true, g);
          if u.Fail? && (strict || u.error != ClosingError) {
            return u;
          }
        }
        j := j + 1;
      }
      res := Pass;
    }

    /** The allocation pass of `close`. */
    method AllocateAll(todo: seq<nat>, strict: bool, ghost g: Acyclic) returns (res: Outcome)
      requires g.net == dag.Structure() && dag.Sound() && forall k :: 0 <= k < |todo| ==> todo[k] < |dag.nodes|
      modifies dag`flags, dag`ins, dag`outs, dag`bufs, dag`callbacks
      ensures (dag.Snapshot(), res) == AllocAll(g, todo, 0, strict, old(dag.Snapshot())) && dag.Sound()
    {
      ghost var w0 := dag.Snapshot();
      var j := 0;
      while j < |todo|
        invariant 0 <= j <= |todo| && dag.Sound()
        invariant AllocAll(g, todo, 0, strict, w0) == AllocAll(g, todo, j, strict, dag.Snapshot())
      {
        if !dag.flags[todo[j]].closed {
          var a := dag.Allocate(todo[j], true, g);
          if a.Err? && (strict || a.error != ClosingError) {
            return Fail(a.error);
          }
        }
        j := j + 1;
      }
      res := Pass;
    }

    /** The three passes of `close` over `todo`. */
    method RunPasses(todo: seq<nat>, strict: bool, closed: bool, ghost g: Acyclic) returns (done: bool, res: Outcome)
      requires g.net == dag.Structure() && dag.Sound() && forall k :: 0 <= k < |todo| ==> todo[k] < |dag.nodes|
      modifies dag`flags, dag`ins, dag`outs, dag`bufs, dag`callbacks
      ensures (dag.Snapshot(), done, res) == ClosePasses(g, dag.typeFn, todo, strict, closed, old(dag.Snapshot())) && dag.Sound()
    {
      done := closed;
      res := UpdateAll(todo, strict, g);
      if res.Fail? {
        return;
      }
      res := AllocateAll(todo, strict, g);
      if res.Fail? {
        return;
      }
      done, res := CloseEach(todo, strict, closed, g);
    }

    /** The close loop of `close`; the result is the graph's `closed`
        afterwards. */
    method CloseEach(todo: seq<nat>, strict: bool, closed: bool, ghost g: Acyclic) returns (done: bool, res: Outcome)
      requires g.net == dag.Structure() && dag.Sound() && forall k :: 0 <= k < |todo| ==> todo[k] < |dag.nodes|
      modifies dag`flags, dag`ins, dag`outs, dag`bufs, dag`callbacks
      ensures (dag.Snapshot(), done, res) == CloseAll(g, dag.typeFn, todo, 0, strict, closed, old(dag.Snapshot())) && dag.Sound()
    {
      ghost var w0 := dag.Snapshot();
      ghost var tf := dag.typeFn;
      done := closed;
      var j := 0;
      while j < |todo|
        invariant 0 <= j <= |todo| && dag.Sound()
        invariant CloseAll(g, tf, todo, 0, strict, closed, w0) == CloseAll(g, tf, todo, j, strict, done, dag.Snapshot())
      {
        ghost var w := dag.Snapshot();
        var c := dag.Close(todo[j], true, true, true, g);
        CloseAllStep(g, tf, todo, j, strict, done, w);
        if c.Err? && (strict || c.error != ClosingError) {
          return done, Fail(c.error);
        }
        if c.Err? || !c.value {
          return false, Pass;
        }
        done := true;
        j := j + 1;
      }
      done, res := true, Pass;
    }

    /** `Graph.close(strict, force)`. */
    method Close(strict: bool, force: bool, ghost g: Acyclic) returns (res: Result<bool>)
      requires Valid() && g.net == dag.Structure()
      modifies this, dag`flags, dag`ins, dag`outs, dag`bufs, dag`callbacks
      ensures (State(), dag.Snapshot(), res) == GraphClose(g, dag.typeFn, old(State()), old(dag.Snapshot()), strict, force)
      ensures Valid()
    {
      if force {
        nodesClosed := false;
      } else if closed {
        return Ok(true);
      }
      res := Finish(strict, g);
    }

    /** `close` after its early return: the three passes over the nodes to
        process, then the graph's own fields. */
    method Finish(strict: bool, ghost g: Acyclic) returns (res: Result<bool>)
      requires Valid() && g.net == dag.Structure()
      modifies this, dag`flags, dag`ins, dag`outs, dag`bufs, dag`callbacks
      ensures (State(), dag.Snapshot(), res) == CloseFinish(old(State()), ClosePasses(g, dag.typeFn, Todo(old(State()), false), strict, old(closed), old(dag.Snapshot())), strict)
      ensures Valid()
    {
      var c;
      closed, c := RunPasses(Todo(State(), false), strict, closed, g);
      if c.Fail? {
        res := Err(c.error);
      } else {
        newNodes := [];
        nodesClosed := true;
        res := if strict && !closed then Err(UnclosedGraphError) else Ok(closed);
      }
    }

    /** The `all(...)` of `open`. */
    method OpenEach(ns: seq<nat>, ft: bool, ghost g: Acyclic) returns (res: Result<bool>)
      requires g.net == dag.Structure() && dag.Sound() && forall k :: 0 <= k < |ns| ==> ns[k] < |dag.nodes|
      modifies dag`flags, dag`nCalls
      ensures (dag.State(), res) == OpenAll(g, ns, 0, ft, old(dag.State())) && dag.Sound()
    {
      ghost var m0 := dag.State();
      var j := 0;
      while j < |ns|
        invariant 0 <= j <= |ns| && dag.Sound()
        invariant OpenAll(g, ns, 0, ft, m0) == OpenAll(g, ns, j, ft, dag.State())
      {
        var o := dag.Open(ns[j], true, ft, g);
        if o.Err? {
          return o;
        }
        if !o.value {
          return Ok(false);
        }
        j := j + 1;
      }
      res := Ok(true);
    }

    /** `Graph.open(force, close_on_exit, open_nodes)`. */
    method Open(force: bool, coe: bool, openNodes: bool, ghost g: Acyclic) returns (res: Outcome)
      requires Valid() && g.net == dag.Structure()
      modifies this, dag`flags, dag`nCalls
      ensures (State(), dag.State(), res) == GraphOpen(g, old(State()), old(dag.State()), force, coe, openNodes)
      ensures Valid()
    {
      closeOnExit := coe;
      if !closed && !force {
        return Pass;
      }
      if openNodes {
        var o := OpenEach(nodes, force, g);
        if o.Err? {
          return Fail(o.error);
        }
        closed := !o.value;
        nodesClosed := false;
      } else {
        closed := false;
      }
      if closed {
        return Fail(ClosedGraphError);
      }
      res := Pass;
    }

    /** `Graph.__exit__(exc)`. */
    method Exit(ctx: Contexts, exc: Option<Error>, ghost g: Acyclic) returns (res: Outcome)
      requires Valid() && g.net == dag.Structure()
      modifies this, ctx, dag`flags, dag`ins, dag`outs, dag`bufs, dag`callbacks
      ensures (State(), dag.Snapshot(), ctx.stack, res) == Exited(g, dag.typeFn, old(State()), old(dag.Snapshot()), old(ctx.stack), id, exc)
      ensures Valid()
    {
      res := ctx.PopGraph(id);
      if res.Fail? {
        return;
      }
      if exc.Some? {
        return Fail(exc.value);
      }
      if closeOnExit {
        var c := Close(strict, false, g);
        res := if c.Err? then Fail(c.error) else Pass;
      }
    }
  }
}
