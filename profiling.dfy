/** The graph walks of the profiling helpers (dagflow/tools/profiling/utils.py).

    Nodes are numbered `0 .. |kids| - 1`.  `kids[n]` lists the child nodes of
    `n` in the order `__child_nodes_gen` yields them (one entry per child
    input of each output, so a child may repeat), and `parents[n]` the parent
    nodes `__parent_nodes_gen` yields.  The graph is acyclic, which the
    proofs use through a ranking that grows from parent to child. */
module Profiling {
  import opened Base

  predicate Wellformed(kids: seq<seq<nat>>)
  {
    forall n, i :: 0 <= n < |kids| && 0 <= i < |kids[n]| ==> kids[n][i] < |kids|
  }

  /** A topological ranking: every child ranks above its parent. */
  ghost predicate Ranked(kids: seq<seq<nat>>, rank: seq<nat>)
  {
    Wellformed(kids) && |rank| == |kids| &&
    (forall n :: 0 <= n < |kids| ==> rank[n] < |kids|) &&
    forall n, i :: 0 <= n < |kids| && 0 <= i < |kids[n]| ==> rank[n] < rank[kids[n][i]]
  }

  /** A walk along child links. */
  ghost predicate IsPath(kids: seq<seq<nat>>, p: seq<nat>)
  {
    |p| > 0 && forall i :: 0 <= i < |p| - 1 ==> p[i] < |kids| && p[i + 1] in kids[p[i]]
  }

  /** `v` can be reached from one of `sources`. */
  ghost predicate Reachable(kids: seq<seq<nat>>, sources: seq<nat>, v: nat)
  {
    exists p :: IsPath(kids, p) && p[0] in sources && p[|p| - 1] == v
  }

  lemma ReachableChild(kids: seq<seq<nat>>, sources: seq<nat>, v: nat, c: nat)
    requires Reachable(kids, sources, v) && v < |kids| && c in kids[v]
    ensures Reachable(kids, sources, c)
  {
    var p :| IsPath(kids, p) && p[0] in sources && p[|p| - 1] == v;
    assert IsPath(kids, p + [c]);
    assert (p + [c])[0] in sources && (p + [c])[|p + [c]| - 1] == c;
  }

  /** Every gathered node was gathered for a reason: it is a source, a sink,
      or one of its children is gathered too. */
  ghost predicate Supported(kids: seq<seq<nat>>, sources: seq<nat>, sinks: seq<nat>, related: set<nat>)
  {
    forall v :: v in related ==> v in sources || v in sinks || (v < |kids| && exists c :: c in kids[v] && c in related)
  }

  /** So from every gathered node a path of gathered nodes leads to a source
      or a sink. */
  lemma {:induction false} SupportedLeads(kids: seq<seq<nat>>, rank: seq<nat>, sources: seq<nat>, sinks: seq<nat>,
                                         related: set<nat>, v: nat)
    requires Ranked(kids, rank) && Supported(kids, sources, sinks, related)
    requires forall u :: u in related ==> u < |kids|
    requires v in related
    ensures exists p :: IsPath(kids, p) && p[0] == v && (p[|p| - 1] in sources || p[|p| - 1] in sinks) &&
                        forall i :: 0 <= i < |p| ==> p[i] in related
    decreases |kids| - rank[v]
  {
    if v in sources || v in sinks {
      assert IsPath(kids, [v]) && [v][0] == v;
    } else {
      var c :| c in kids[v] && c in related;
      var i :| 0 <= i < |kids[v]| && kids[v][i] == c;
      assert rank[v] < rank[c];
      SupportedLeads(kids, rank, sources, sinks, related, c);
      var p :| IsPath(kids, p) && p[0] == c && (p[|p| - 1] in sources || p[|p| - 1] in sinks) &&
               forall i :: 0 <= i < |p| ==> p[i] in related;
      var q := [v] + p;
      assert forall i :: 0 < i < |q| ==> q[i] == p[i - 1];
      assert IsPath(kids, q);
      assert q[|q| - 1] == p[|p| - 1];
    }
  }

  /** What the walk keeps true of the related and visited nodes: sources
      are related, related nodes are reachable and supported, and every child
      of a visited node is visited or related. */
  ghost predicate Gathered(kids: seq<seq<nat>>, sources: seq<nat>, sinks: seq<nat>, related: set<nat>, visited: set<nat>)
  {
    (forall s :: s in sources ==> s in related) &&
    (forall v :: v in related ==> v < |kids| && Reachable(kids, sources, v)) &&
    Supported(kids, sources, sinks, related) &&
    (forall v :: v in visited ==> v < |kids| && forall c :: c in kids[v] ==> c in visited || c in related)
  }

  /** The current path: each stack entry is a parent of the next and the
      last is a parent of `cur`; ranks rise along it; none of its nodes is
      visited, except that a start node may be. */
  ghost predicate PathOk(kids: seq<seq<nat>>, rank: seq<nat>, sources: seq<nat>, stack: seq<nat>, cur: nat, visited: set<nat>)
    requires Ranked(kids, rank)
  {
    cur < |kids| && Reachable(kids, sources, cur) &&
    (forall i :: 0 <= i < |stack| ==> stack[i] < |kids| && Reachable(kids, sources, stack[i])) &&
    (forall i :: 0 <= i < |stack| - 1 ==> stack[i + 1] in kids[stack[i]]) &&
    (|stack| > 0 ==> cur in kids[stack[|stack| - 1]]) &&
    (forall i :: 0 <= i < |stack| ==> rank[stack[i]] < rank[cur]) &&
    (forall i, j :: 0 <= i < j < |stack| ==> rank[stack[i]] < rank[stack[j]]) &&
    (forall i :: 0 <= i < |stack| ==> stack[i] !in visited) &&
    (|stack| > 0 ==> cur !in visited)
  }

  /** The nodes of the current path: the stack and the node being scanned. */
  function OnPath(stack: seq<nat>, cur: nat): set<nat>
  {
    (set x | x in stack) + {cur}
  }

  /** The node numbers `0 .. n - 1`. */
  ghost function Nodes(n: nat): (r: set<nat>)
    ensures forall v: nat :: v in r <==> v < n
  {
    if n == 0 then {} else Nodes(n - 1) + {n - 1}
  }

  /** A proper subset is smaller. */
  lemma {:induction false} Smaller(a: set<nat>, b: set<nat>)
    requires a < b
    ensures |a| < |b|
  {
    var x :| x in b && x !in a;
    var c := b - a;
    assert x in c;
    assert a * c == {};
    assert a + c == b;
  }

  /** Adding a sink child of the current node keeps the walk's invariant. */
  lemma AddSink(kids: seq<seq<nat>>, rank: seq<nat>, sources: seq<nat>, sinks: seq<nat>,
                stack: seq<nat>, cur: nat, visited: set<nat>, related: set<nat>, ch: nat)
    requires Ranked(kids, rank) && PathOk(kids, rank, sources, stack, cur, visited)
    requires Gathered(kids, sources, sinks, related, visited)
    requires ch in kids[cur] && ch in sinks
    ensures Gathered(kids, sources, sinks, related + {ch}, visited)
  {
    ReachableChild(kids, sources, cur, ch);
    assert ch < |kids|;
  }

  /** Adding the path to a related child of the current node keeps the
      walk's invariant. */
  lemma AddPath(kids: seq<seq<nat>>, rank: seq<nat>, sources: seq<nat>, sinks: seq<nat>,
                stack: seq<nat>, cur: nat, visited: set<nat>, related: set<nat>, ch: nat)
    requires Ranked(kids, rank) && PathOk(kids, rank, sources, stack, cur, visited)
    requires Gathered(kids, sources, sinks, related, visited)
    requires ch in kids[cur] && ch in related
    ensures Gathered(kids, sources, sinks, related + OnPath(stack, cur), visited)
  {
    PathSupported(kids, rank, sources, sinks, stack, cur, visited, related, ch);
    forall v | v in OnPath(stack, cur)
      ensures v < |kids| && Reachable(kids, sources, v)
    {
      if v != cur {
        var i :| 0 <= i < |stack| && stack[i] == v;
      }
    }
  }

  /** Related gains the path to a related child of `cur`. */
  lemma PathSupported(kids: seq<seq<nat>>, rank: seq<nat>, sources: seq<nat>, sinks: seq<nat>,
                      stack: seq<nat>, cur: nat, visited: set<nat>, related: set<nat>, ch: nat)
    requires Ranked(kids, rank) && PathOk(kids, rank, sources, stack, cur, visited)
    requires Supported(kids, sources, sinks, related)
    requires ch in kids[cur] && ch in related
    ensures Supported(kids, sources, sinks, related + OnPath(stack, cur))
  {
    var after := related + OnPath(stack, cur);
    forall v | v in after
      ensures v in sources || v in sinks || (v < |kids| && exists c :: c in kids[v] && c in after)
    {
      if v !in related {
        if v == cur {
          assert ch in kids[v] && ch in after;
        } else {
          var i :| 0 <= i < |stack| && stack[i] == v;
          if i < |stack| - 1 {
            assert stack[i + 1] in kids[v] && stack[i + 1] in after;
          } else {
            assert cur in kids[v] && cur in after;
          }
        }
      }
    }
  }

  /** One `for ch in __child_nodes_gen(cur_node)` pass: stops at the first
      child that is neither related nor visited (`next`), or scans them all. */
  method Scan(kids: seq<seq<nat>>, sources: seq<nat>, sinks: seq<nat>, stack: seq<nat>, cur: nat,
              related0: set<nat>, visited: set<nat>, ghost rank: seq<nat>)
    returns (related: set<nat>, next: Option<nat>)
    requires Ranked(kids, rank)
    requires forall t :: t in sinks ==> t < |kids|
    requires PathOk(kids, rank, sources, stack, cur, visited)
    requires Gathered(kids, sources, sinks, related0, visited)
    ensures Gathered(kids, sources, sinks, related, visited)
    ensures related0 <= related
    ensures next.None? ==> forall c :: c in kids[cur] ==> c in visited || c in related
    ensures next.Some? ==> next.value in kids[cur] && next.value !in visited && cur !in visited
  {
    related := related0;
    var ks := kids[cur];
    var k := 0;
    while k < |ks|
      invariant 0 <= k <= |ks|
      invariant forall q :: 0 <= q < k ==> ks[q] in related || ks[q] in visited
      invariant related0 <= related
      invariant Gathered(kids, sources, sinks, related, visited)
    {
      var ch := ks[k];
      assert ch in kids[cur];
      if ch in sinks {
        AddSink(kids, rank, sources, sinks, stack, cur, visited, related, ch);
        related := related + {ch};
      }
      if ch in related {
        AddPath(kids, rank, sources, sinks, stack, cur, visited, related, ch);
        related := related + OnPath(stack, cur);
      } else if ch !in visited {
        return related, Some(ch);
      }
      k := k + 1;
    }
    return related, None;
  }

  /** One turn of the `while True` loop: scan the current node, then descend
      into the child the scan stopped at, or else visit the node and back up
      the stack (`done` when the stack was empty).  Each turn visits a node
      or puts an unvisited node on the path. */
  method Step(kids: seq<seq<nat>>, sources: seq<nat>, sinks: seq<nat>, stack0: seq<nat>, cur0: nat,
              related0: set<nat>, visited0: set<nat>, ghost rank: seq<nat>)
    returns (stack: seq<nat>, cur: nat, related: set<nat>, visited: set<nat>, done: bool)
    requires Ranked(kids, rank)
    requires forall t :: t in sinks ==> t < |kids|
    requires PathOk(kids, rank, sources, stack0, cur0, visited0)
    requires Gathered(kids, sources, sinks, related0, visited0)
    requires visited0 <= Nodes(|kids|)
    ensures Gathered(kids, sources, sinks, related, visited)
    ensures visited <= Nodes(|kids|)
    ensures related0 <= related
    ensures !done ==> PathOk(kids, rank, sources, stack, cur, visited)
    ensures !done ==> |Nodes(|kids|) - visited| < |Nodes(|kids|) - visited0| ||
                      (visited == visited0 &&
                       |Nodes(|kids|) - visited - OnPath(stack, cur)| < |Nodes(|kids|) - visited0 - OnPath(stack0, cur0)|)
  {
    ghost var all := Nodes(|kids|);
    stack, cur, visited, done := stack0, cur0, visited0, false;
    var next;
    related, next := Scan(kids, sources, sinks, stack, cur, related0, visited, rank);
    if next.Some? {
      Descend(kids, rank, sources, stack, cur, visited, next.value, all);
      Smaller(all - visited - OnPath(stack + [cur], next.value), all - visited - OnPath(stack, cur));
      stack, cur := stack + [cur], next.value;
      return;
    }
    Finish(kids, sources, sinks, related, visited, cur);
    visited := visited + {cur};
    if |stack| == 0 {
      done := true;
      return;
    }
    assert all - visited == (all - visited0) - {cur};
    Smaller(all - visited, all - visited0);
    Backtrack(kids, rank, sources, stack, cur, visited0);
    stack, cur := stack[..|stack| - 1], stack[|stack| - 1];
  }

  /** The `while True` loop of one start node, until a node is visited with
      the stack empty. */
  method WalkFrom(kids: seq<seq<nat>>, sources: seq<nat>, sinks: seq<nat>, start: nat,
                  related0: set<nat>, visited0: set<nat>, ghost rank: seq<nat>)
    returns (related: set<nat>, visited: set<nat>)
    requires Ranked(kids, rank)
    requires forall t :: t in sinks ==> t < |kids|
    requires start in sources && start < |kids|
    requires Gathered(kids, sources, sinks, related0, visited0)
    requires visited0 <= Nodes(|kids|)
    ensures Gathered(kids, sources, sinks, related, visited)
    ensures visited <= Nodes(|kids|)
    ensures related0 <= related
  {
    related, visited := related0, visited0;
    var stack: seq<nat> := [];
    var cur := start;
    assert IsPath(kids, [cur]) && [cur][0] in sources;
    assert PathOk(kids, rank, sources, stack, cur, visited);
    var done := false;
    while !done
      invariant !done ==> PathOk(kids, rank, sources, stack, cur, visited)
      invariant Gathered(kids, sources, sinks, related, visited)
      invariant visited <= Nodes(|kids|)
      invariant related0 <= related
      decreases !done, |Nodes(|kids|) - visited|, |Nodes(|kids|) - visited - OnPath(stack, cur)|
    {
      stack, cur, related, visited, done := Step(kids, sources, sinks, stack, cur, related, visited, rank);
    }
  }

  /** The depth-first walk of `gather_related_nodes`, before the
      reachability check.  Each start node is walked in turn; scanning a
      node's children adds a child that is a sink, and when a child is
      already related, adds the whole path to it; an unvisited child is
      descended into; a node whose children are all scanned is visited, and
      the walk backs up to the node below it on the stack. */
  method Walk(kids: seq<seq<nat>>, sources: seq<nat>, sinks: seq<nat>, ghost rank: seq<nat>) returns (related: set<nat>)
    requires Ranked(kids, rank)
    requires forall s :: s in sources ==> s < |kids|
    requires forall t :: t in sinks ==> t < |kids|
    ensures forall s :: s in sources ==> s in related
    ensures forall v :: v in related ==> v < |kids| && Reachable(kids, sources, v)
    ensures Supported(kids, sources, sinks, related)
  {
    related := set s | s in sources;
    forall s | s in sources
      ensures Reachable(kids, sources, s)
    {
      assert IsPath(kids, [s]) && [s][0] in sources;
    }
    var visited: set<nat> := {};
    for si := 0 to |sources|
      invariant Gathered(kids, sources, sinks, related, visited)
      invariant visited <= Nodes(|kids|)
    {
      related, visited := WalkFrom(kids, sources, sinks, sources[si], related, visited, rank);
    }
  }

  /** Descending into an unvisited child keeps the path well formed, and the
      child was not on the path. */
  lemma Descend(kids: seq<seq<nat>>, rank: seq<nat>, sources: seq<nat>, stack: seq<nat>, cur: nat,
                visited: set<nat>, ch: nat, all: set<nat>)
    requires Ranked(kids, rank) && PathOk(kids, rank, sources, stack, cur, visited)
    requires ch in kids[cur] && ch !in visited && cur !in visited
    requires all == Nodes(|kids|)
    ensures PathOk(kids, rank, sources, stack + [cur], ch, visited)
    ensures all - visited - OnPath(stack + [cur], ch) < all - visited - OnPath(stack, cur)
  {
    var i :| 0 <= i < |kids[cur]| && kids[cur][i] == ch;
    assert rank[cur] < rank[ch];
    assert ch !in OnPath(stack, cur);
    assert ch in all;
    ReachableChild(kids, sources, cur, ch);
    assert OnPath(stack + [cur], ch) == OnPath(stack, cur) + {ch};
  }

  /** A node whose children are all visited or related may be visited. */
  lemma Finish(kids: seq<seq<nat>>, sources: seq<nat>, sinks: seq<nat>, related: set<nat>, visited: set<nat>, cur: nat)
    requires Gathered(kids, sources, sinks, related, visited)
    requires cur < |kids| && forall c :: c in kids[cur] ==> c in visited || c in related
    ensures Gathered(kids, sources, sinks, related, visited + {cur})
  {
  }

  /** Backing up to the node below on the stack keeps the path well formed
      once the finished node is visited. */
  lemma Backtrack(kids: seq<seq<nat>>, rank: seq<nat>, sources: seq<nat>, stack: seq<nat>, cur: nat, visited: set<nat>)
    requires Ranked(kids, rank) && PathOk(kids, rank, sources, stack, cur, visited)
    requires |stack| > 0
    ensures PathOk(kids, rank, sources, stack[..|stack| - 1], stack[|stack| - 1], visited + {cur})
  {
  }

  /** `__check_reachable`: the first sink missing from the gathered nodes
      raises ValueError. */
  function CheckReachable(gathered: set<nat>, sinks: seq<nat>, j: nat): (r: Outcome)
    requires j <= |sinks|
    ensures r.Pass? <==> forall k :: j <= k < |sinks| ==> sinks[k] in gathered
    ensures r.Fail? ==> r.error == ValueError
    decreases |sinks| - j
  {
    if j == |sinks| then Pass
    else if sinks[j] !in gathered then Fail(ValueError)
    else CheckReachable(gathered, sinks, j + 1)
  }

  /** `gather_related_nodes`: the walk, then the reachability check. */
  method GatherRelatedNodes(kids: seq<seq<nat>>, sources: seq<nat>, sinks: seq<nat>, ghost rank: seq<nat>)
    returns (r: Result<set<nat>>)
    requires Ranked(kids, rank)
    requires forall s :: s in sources ==> s < |kids|
    requires forall t :: t in sinks ==> t < |kids|
    ensures r.Err? ==> r.error == ValueError
    ensures r.Ok? ==> forall s :: s in sources ==> s in r.value
    ensures r.Ok? ==> forall t :: t in sinks ==> t in r.value
    ensures r.Ok? ==> forall v :: v in r.value ==> Reachable(kids, sources, v)
    ensures r.Ok? ==> Supported(kids, sources, sinks, r.value)
    ensures (exists t :: t in sinks && !Reachable(kids, sources, t)) ==> r.Err?
  {
    var related := Walk(kids, sources, sinks, rank);
    var check := CheckReachable(related, sinks, 0);
    if check.Fail? {
      return Err(check.error);
    }
    return Ok(related);
  }

  // ---------------------------------------------------------------------
  // reveal_source_sink

  predicate HasParentIn(nodes: seq<nat>, parents: seq<seq<nat>>, v: nat)
    requires v < |parents|
  {
    exists i :: 0 <= i < |parents[v]| && parents[v][i] in nodes
  }

  predicate HasChildIn(nodes: seq<nat>, kids: seq<seq<nat>>, v: nat)
    requires v < |kids|
  {
    exists i :: 0 <= i < |kids[v]| && kids[v][i] in nodes
  }

  /** The sources and sinks among `nodes[..k]`, in order. */
  function Split(nodes: seq<nat>, parents: seq<seq<nat>>, kids: seq<seq<nat>>, k: nat): (r: (seq<nat>, seq<nat>))
    requires k <= |nodes|
    requires forall v :: v in nodes ==> v < |parents| && v < |kids|
    ensures |r.0| + |r.1| <= k
    ensures forall v :: v in r.0 || v in r.1 ==> v in nodes[..k]
  {
    if k == 0 then ([], [])
    else
      var (sources, sinks) := Split(nodes, parents, kids, k - 1);
      var v := nodes[k - 1];
      assert v in nodes;
      if HasParentIn(nodes, parents, v) && HasChildIn(nodes, kids, v) then (sources, sinks)
      else if HasParentIn(nodes, parents, v) then (sources, sinks + [v])
      else (sources + [v], sinks)
  }

  /** A node without a parent among `nodes` is a source, one with parents
      but no children there is a sink, and one with both is neither. */
  lemma {:induction false} SplitMembers(nodes: seq<nat>, parents: seq<seq<nat>>, kids: seq<seq<nat>>, k: nat, v: nat)
    requires k <= |nodes|
    requires forall u :: u in nodes ==> u < |parents| && u < |kids|
    ensures v in Split(nodes, parents, kids, k).0 <==> v in nodes[..k] && v in nodes && !HasParentIn(nodes, parents, v)
    ensures v in Split(nodes, parents, kids, k).1 <==>
              v in nodes[..k] && v in nodes && HasParentIn(nodes, parents, v) && !HasChildIn(nodes, kids, v)
  {
    if k > 0 {
      SplitMembers(nodes, parents, kids, k - 1, v);
      assert nodes[..k] == nodes[..k - 1] + [nodes[k - 1]];
    }
  }

  /** The two lists never share a node, and every listed node is one of
      `nodes`. */
  lemma SplitDisjoint(nodes: seq<nat>, parents: seq<seq<nat>>, kids: seq<seq<nat>>, v: nat)
    requires forall u :: u in nodes ==> u < |parents| && u < |kids|
    ensures !(v in Split(nodes, parents, kids, |nodes|).0 && v in Split(nodes, parents, kids, |nodes|).1)
    ensures v in Split(nodes, parents, kids, |nodes|).0 || v in Split(nodes, parents, kids, |nodes|).1 ==> v in nodes
  {
    SplitMembers(nodes, parents, kids, |nodes|, v);
    assert nodes[..|nodes|] == nodes;
  }

  /** `reveal_source_sink`: one pass over `nodes`. */
  method RevealSourceSink(nodes: seq<nat>, parents: seq<seq<nat>>, kids: seq<seq<nat>>)
    returns (sources: seq<nat>, sinks: seq<nat>)
    requires forall v :: v in nodes ==> v < |parents| && v < |kids|
    ensures (sources, sinks) == Split(nodes, parents, kids, |nodes|)
  {
    sources, sinks := [], [];
    for k := 0 to |nodes|
      invariant (sources, sinks) == Split(nodes, parents, kids, k)
    {
      var node := nodes[k];
      assert node in nodes;
      var haveParents := exists i :: 0 <= i < |parents[node]| && parents[node][i] in nodes;
      var haveChilds := exists i :: 0 <= i < |kids[node]| && kids[node][i] in nodes;
      if haveParents && haveChilds {
        continue;
      } else if haveParents {
        sinks := sinks + [node];
      } else {
        sources := sources + [node];
      }
    }
  }
}
