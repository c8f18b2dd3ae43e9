/** The allocation pass (src/dagflow/core/node.py `allocate` and
    `_post_allocate`, dagflow/core/edges.py `allocate`) on values: the flags,
    the ports' data and the nodes' callback lists. */
module AllocWalk {
  import opened Base
  import opened Links
  import opened NodeFlags
  import opened Reach
  import opened Ports

  /** The data of every input and output, and the buffer store. */
  datatype Store = Store(ins: seq<InState>, outs: seq<OutState>, bufs: seq<DataDescriptor.Array>)

  /** What the allocation pass reads and writes: flags, port data, and each
      node's `_input_nodes_callbacks`, a list of the nodes whose `touch` it
      holds. */
  datatype World = World(flags: seq<Flags>, store: Store, callbacks: seq<seq<nat>>)

  predicate Sized(net: Net, w: World)
  {
    |w.flags| == |net.nodes| && |w.callbacks| == |net.nodes| &&
    |w.store.ins| == |net.inputs| && |w.store.outs| == |net.outputs|
  }

  /** `inputs.allocate()`: every input of `n`, in `iter_all` order from the
      `j`-th on, allocates; the result tells whether any data was
      reassigned.  An error stops the loop with the work done so far kept. */
  function AllocIns(g: Acyclic, n: nat, j: nat, acc: bool, st: Store): (r: (Store, Result<bool>))
    requires n < |g.net.nodes| && j <= |InputsOf(g.net, n)| && |st.ins| == |g.net.inputs|
    ensures |r.0.ins| == |st.ins| && r.0.outs == st.outs && Stable(st.bufs, r.0.bufs)
    ensures r.1.Err? ==> r.1.error == AllocationError
    ensures acc && r.1.Ok? ==> r.1.value
    decreases |InputsOf(g.net, n)| - j
  {
    if j == |InputsOf(g.net, n)| then (st, Ok(acc))
    else
      var i := InputsOf(g.net, n)[j];
      var a := InAlloc(st.ins[i], st.bufs, false);
      if a.Err? then (st, Err(a.error))
      else
        var r := AllocIns(g, n, j + 1, acc || a.value.2, st.(ins := st.ins[i := a.value.0], bufs := a.value.1));
        StableTrans(st.bufs, a.value.1, r.0.bufs);
        r
  }

  /** One step of `AllocIns`: the `j`-th input allocates, and an error
      stops the loop where it is. */
  lemma AllocInsStep(g: Acyclic, n: nat, j: nat, acc: bool, st: Store)
    requires n < |g.net.nodes| && j < |InputsOf(g.net, n)| && |st.ins| == |g.net.inputs|
    ensures var i := InputsOf(g.net, n)[j];
            var a := InAlloc(st.ins[i], st.bufs, false);
            (a.Err? ==> AllocIns(g, n, j, acc, st) == (st, Err(a.error))) &&
            (a.Ok? ==> AllocIns(g, n, j, acc, st) == AllocIns(g, n, j + 1, acc || a.value.2, Store(st.ins[i := a.value.0], st.outs, a.value.1)))
  {
  }

  /** The allocating input of output `o`, if it has one. */
  function AinOf(net: Net, o: nat, st: Store): (r: Option<InState>)
    requires Wired(net) && o < |net.outputs| && |st.ins| == |net.inputs|
    ensures r.Some? <==> net.outputs[o].allocatingInput.Some?
  {
    var ai := net.outputs[o].allocatingInput;
    if ai.Some? then Some(st.ins[ai.value]) else None
  }

  /** The store after output `o` allocated into `a`. */
  function Install(net: Net, o: nat, a: Alloc, st: Store): (r: Store)
    requires Wired(net) && o < |net.outputs| && |st.ins| == |net.inputs| && |st.outs| == |net.outputs|
    ensures |r.ins| == |st.ins| && |r.outs| == |st.outs| && r.bufs == a.bufs && r.outs == st.outs[o := a.out]
  {
    var ai := net.outputs[o].allocatingInput;
    var ins := if ai.Some? && a.ain.Some? then st.ins[ai.value := a.ain.value] else st.ins;
    Store(ins, st.outs[o := a.out], a.bufs)
  }

  /** `outputs.allocate()` from the `j`-th output of `n` on; `closed` is the
      node's `closed` flag. */
  function AllocOuts(g: Acyclic, n: nat, j: nat, acc: bool, closed: bool, st: Store): (r: (Store, Result<bool>))
    requires n < |g.net.nodes| && j <= |OutputsOf(g.net, n)|
    requires |st.ins| == |g.net.inputs| && |st.outs| == |g.net.outputs|
    ensures |r.0.ins| == |st.ins| && |r.0.outs| == |st.outs| && Stable(st.bufs, r.0.bufs)
    ensures acc && r.1.Ok? ==> r.1.value
    decreases |OutputsOf(g.net, n)| - j
  {
    if j == |OutputsOf(g.net, n)| then (st, Ok(acc))
    else
      var o := OutputsOf(g.net, n)[j];
      var a := OutAlloc(st.outs[o], closed, AinOf(g.net, o, st), st.bufs);
      if a.Err? then (st, Err(a.error))
      else
        var r := AllocOuts(g, n, j + 1, acc || a.value.reassigned, closed, Install(g.net, o, a.value, st));
        StableTrans(st.bufs, a.value.bufs, r.0.bufs);
        r
  }

  /** One step of `AllocOuts`: the `j`-th output allocates, and an error
      stops the loop where it is. */
  lemma AllocOutsStep(g: Acyclic, n: nat, j: nat, acc: bool, closed: bool, st: Store)
    requires n < |g.net.nodes| && j < |OutputsOf(g.net, n)|
    requires |st.ins| == |g.net.inputs| && |st.outs| == |g.net.outputs|
    ensures var o := OutputsOf(g.net, n)[j];
            var a := OutAlloc(st.outs[o], closed, AinOf(g.net, o, st), st.bufs);
            (a.Err? ==> AllocOuts(g, n, j, acc, closed, st) == (st, Err(a.error))) &&
            (a.Ok? ==> AllocOuts(g, n, j, acc, closed, st) == AllocOuts(g, n, j + 1, acc || a.value.reassigned, closed, Install(g.net, o, a.value, st)))
  {
  }

  /** `_post_allocate` as written: after emptying the list it appends the
      parent node of every input (reading the parent of an unconnected input
      raises AttributeError).  Its test for a node already present compares
      the node with the bound `touch` methods already stored, which is never
      true, so nothing is skipped. */
  function PostAllocAsWritten(g: Acyclic, n: nat, j: nat, cbs: seq<nat>): (r: (seq<nat>, Outcome))
    requires n < |g.net.nodes| && j <= |InputsOf(g.net, n)|
    ensures |r.0| == |cbs| + (|InputsOf(g.net, n)| - j) || r.1.Fail?
    decreases |InputsOf(g.net, n)| - j
  {
    if j == |InputsOf(g.net, n)| then (cbs, Pass)
    else
      match ParentNode(g.net, InputsOf(g.net, n)[j])
      case None => (cbs, Fail(AttributeError))
      case Some(p) => PostAllocAsWritten(g, n, j + 1, cbs + [p])
  }

  /** `_post_allocate` as intended: one callback per distinct parent node. */
  function PostAlloc(g: Acyclic, n: nat, j: nat, cbs: seq<nat>): (r: (seq<nat>, Outcome))
    requires n < |g.net.nodes| && j <= |InputsOf(g.net, n)|
    ensures |cbs| <= |r.0| && r.0[..|cbs|] == cbs
    ensures r.1.Fail? ==> r.1.error == AttributeError
    decreases |InputsOf(g.net, n)| - j
  {
    if j == |InputsOf(g.net, n)| then (cbs, Pass)
    else
      match ParentNode(g.net, InputsOf(g.net, n)[j])
      case None => (cbs, Fail(AttributeError))
      case Some(p) => PostAlloc(g, n, j + 1, if p in cbs then cbs else cbs + [p])
  }

  /** No node occurs twice. */
  predicate Distinct(s: seq<nat>)
  {
    forall a, b :: 0 <= a < b < |s| ==> s[a] != s[b]
  }

  /** The parent nodes of the inputs of `n` from the `j`-th on. */
  function ParentsFrom(g: Acyclic, n: nat, j: nat): (s: set<nat>)
    requires n < |g.net.nodes| && j <= |InputsOf(g.net, n)|
    decreases |InputsOf(g.net, n)| - j
  {
    if j == |InputsOf(g.net, n)| then {}
    else
      match ParentNode(g.net, InputsOf(g.net, n)[j])
      case None => ParentsFrom(g, n, j + 1)
      case Some(p) => {p} + ParentsFrom(g, n, j + 1)
  }

  /** The intended callback list holds each parent node of `n` exactly once. */
  lemma {:induction false} PostAllocDistinct(g: Acyclic, n: nat, j: nat, cbs: seq<nat>)
    requires n < |g.net.nodes| && j <= |InputsOf(g.net, n)| && Distinct(cbs)
    ensures Distinct(PostAlloc(g, n, j, cbs).0)
    ensures PostAlloc(g, n, j, cbs).1.Pass? ==>
              forall k :: k in PostAlloc(g, n, j, cbs).0 <==> k in cbs || k in ParentsFrom(g, n, j)
    decreases |InputsOf(g.net, n)| - j
  {
    if j < |InputsOf(g.net, n)| && ParentNode(g.net, InputsOf(g.net, n)[j]).Some? {
      var p := ParentNode(g.net, InputsOf(g.net, n)[j]).value;
      var c1 := if p in cbs then cbs else cbs + [p];
      assert Distinct(c1);
      PostAllocDistinct(g, n, j + 1, c1);
    }
  }

  /** A node fed twice by one parent gets that parent's callback twice from
      `_post_allocate` as written, once as intended. */
  lemma PostAllocDuplicates(g: Acyclic, n: nat)
    requires n < |g.net.nodes| && |InputsOf(g.net, n)| == 2
    requires ParentNode(g.net, InputsOf(g.net, n)[0]).Some?
    requires ParentNode(g.net, InputsOf(g.net, n)[1]) == ParentNode(g.net, InputsOf(g.net, n)[0])
    ensures var p := ParentNode(g.net, InputsOf(g.net, n)[0]).value;
            PostAllocAsWritten(g, n, 0, []) == ([p, p], Pass) && PostAlloc(g, n, 0, []) == ([p], Pass)
  {
    var p := ParentNode(g.net, InputsOf(g.net, n)[0]).value;
    assert [] + [p] == [p] && [p] + [p] == [p, p];
    assert PostAllocAsWritten(g, n, 0, []) == PostAllocAsWritten(g, n, 1, [p]);
    assert PostAllocAsWritten(g, n, 1, [p]) == PostAllocAsWritten(g, n, 2, [p, p]);
    assert PostAlloc(g, n, 0, []) == PostAlloc(g, n, 1, [p]);
    assert PostAlloc(g, n, 1, [p]) == PostAlloc(g, n, 2, [p]);
  }

  /** The node-local part of `Node.allocate` once the parents are done:
      inputs, then outputs, then `_post_allocate` when some data was
      reassigned or the node asks for it; then the node is allocated and
      needs no reallocation. */
  function LocalAlloc(g: Acyclic, n: nat, w: World): (r: (World, Result<bool>))
    requires n < |g.net.nodes| && Sized(g.net, w)
    ensures Sized(g.net, r.0) && Stable(w.store.bufs, r.0.store.bufs)
    ensures r.1.Ok? ==> r.1.value && r.0.flags == w.flags[n := AllocatedFlags(w.flags[n])]
    ensures r.1.Err? ==> r.0.flags == w.flags
  {
    var r1 := AllocIns(g, n, 0, false, w.store);
    if r1.1.Err? then (w.(store := r1.0), Err(r1.1.error))
    else
      var r2 := AllocOuts(g, n, 0, false, w.flags[n].closed, r1.0);
      StableTrans(w.store.bufs, r1.0.bufs, r2.0.bufs);
      if r2.1.Err? then (w.(store := r2.0), Err(r2.1.error))
      else
        var w2 := w.(store := r2.0);
        var w3 :=
          if r1.1.value || r2.1.value || w.flags[n].needsPostAllocate then
            var c := PostAlloc(g, n, 0, []);
            (w2.(callbacks := w2.callbacks[n := c.0]), c.1)
          else (w2, Pass);
        if w3.1.Fail? then (w3.0, Err(w3.1.error))
        else (w3.0.(flags := w.flags[n := AllocatedFlags(w.flags[n])]), Ok(true))
  }

  /** `Node.allocate(allocate_parents)`: an allocated node that needs no
      reallocation is done; otherwise, when asked, every parent allocates
      first (an unconnected input raises ClosingError), then the node
      itself.  It never returns False: the early `return False` is dead. */
  function AllocNode(g: Acyclic, n: nat, up: bool, w: World): (r: (World, Result<bool>))
    requires n < |g.net.nodes| && Sized(g.net, w)
    ensures Sized(g.net, r.0)
    ensures r.1.Ok? ==> r.1.value
    ensures w.flags[n].isAllocated && !w.flags[n].needsReallocation ==> r == (w, Ok(true))
    ensures r.1.Ok? ==> r.0.flags[n].isAllocated && !r.0.flags[n].needsReallocation
    decreases g.rank[n], 1, 0
  {
    if w.flags[n].isAllocated && !w.flags[n].needsReallocation then (w, Ok(true))
    else
      var r1 := if up then AllocParents(g, n, 0, w) else (w, Ok(true));
      if r1.1 != Ok(true) then r1
      else LocalAlloc(g, n, r1.0)
  }

  /** The loop over `inputs.iter_all()` allocating each parent node. */
  function AllocParents(g: Acyclic, n: nat, j: nat, w: World): (r: (World, Result<bool>))
    requires n < |g.net.nodes| && j <= |InputsOf(g.net, n)| && Sized(g.net, w)
    ensures Sized(g.net, r.0)
    ensures r.1.Ok? ==> r.1.value
    decreases g.rank[n], 0, |InputsOf(g.net, n)| - j
  {
    if j == |InputsOf(g.net, n)| then (w, Ok(true))
    else
      var i := InputsOf(g.net, n)[j];
      match ParentNode(g.net, i)
      case None => (w, Err(ClosingError))
      case Some(p) =>
        ParentBelow(g, i);
        var r1 := AllocNode(g, p, true, w);
        if r1.1 != Ok(true) then r1 else AllocParents(g, n, j + 1, r1.0)
  }

  /** Every node whose flags differ is in `s` and holds what `allocate`
      makes of its old flags. */
  predicate AllocWithin(f0: seq<Flags>, f1: seq<Flags>, s: set<nat>)
  {
    |f1| == |f0| &&
    forall k :: 0 <= k < |f0| ==> f1[k] == f0[k] || (k in s && f1[k] == AllocatedFlags(f0[k]))
  }

  lemma AllocWithinTrans(f0: seq<Flags>, f1: seq<Flags>, f2: seq<Flags>, s1: set<nat>, s2: set<nat>)
    requires AllocWithin(f0, f1, s1) && AllocWithin(f1, f2, s2)
    ensures AllocWithin(f0, f2, s1 + s2)
  {
  }

  /** The allocation pass changes the flags of the node and its ancestors
      only, each into what `allocate` makes of them. */
  lemma {:induction false} AllocNodeWithin(g: Acyclic, n: nat, up: bool, w: World)
    requires n < |g.net.nodes| && Sized(g.net, w)
    ensures AllocWithin(w.flags, AllocNode(g, n, up, w).0.flags, {n} + Up(g, n, 0))
    decreases g.rank[n], 1, 0, 0
  {
    if !(w.flags[n].isAllocated && !w.flags[n].needsReallocation) {
      var r1 := if up then AllocParents(g, n, 0, w) else (w, Ok(true));
      if up {
        AllocParentsWithin(g, n, 0, w);
      }
      if r1.1 == Ok(true) {
        AllocWithinTrans(w.flags, r1.0.flags, AllocNode(g, n, up, w).0.flags, Up(g, n, 0), {n});
      }
    }
  }

  lemma {:induction false} AllocParentsWithin(g: Acyclic, n: nat, j: nat, w: World)
    requires n < |g.net.nodes| && j <= |InputsOf(g.net, n)| && Sized(g.net, w)
    ensures AllocWithin(w.flags, AllocParents(g, n, j, w).0.flags, Up(g, n, j))
    decreases g.rank[n], 0, |InputsOf(g.net, n)| - j, 1
  {
    if j < |InputsOf(g.net, n)| {
      if ParentNode(g.net, InputsOf(g.net, n)[j]).Some? {
        WithinParent(g, n, j, w);
      } else {
        WithinUnbound(g, n, j, w);
      }
    }
  }

  /** The step of `AllocParentsWithin` at a connected input: the parent's
      walk, then the rest of the inputs when the parent allocates. */
  lemma {:induction false} WithinParent(g: Acyclic, n: nat, j: nat, w: World)
    requires n < |g.net.nodes| && j < |InputsOf(g.net, n)| && Sized(g.net, w)
    requires ParentNode(g.net, InputsOf(g.net, n)[j]).Some?
    ensures AllocWithin(w.flags, AllocParents(g, n, j, w).0.flags, Up(g, n, j))
    decreases g.rank[n], 0, |InputsOf(g.net, n)| - j, 0
  {
    var i := InputsOf(g.net, n)[j];
    var p := ParentNode(g.net, i).value;
    ParentBelow(g, i);
    AllocNodeWithin(g, p, true, w);
    var r1 := AllocNode(g, p, true, w);
    if r1.1 == Ok(true) {
      AllocParentsWithin(g, n, j + 1, r1.0);
      WithinNext(g, n, j, w);
    } else {
      WithinStop(g, n, j, w);
    }
  }

  /** The step of `AllocParentsWithin` past a parent that allocates. */
  lemma WithinNext(g: Acyclic, n: nat, j: nat, w: World)
    requires n < |g.net.nodes| && j < |InputsOf(g.net, n)| && Sized(g.net, w)
    requires ParentNode(g.net, InputsOf(g.net, n)[j]).Some?
    requires ParentNode(g.net, InputsOf(g.net, n)[j]).value < |g.net.nodes|
    requires var p := ParentNode(g.net, InputsOf(g.net, n)[j]).value;
             var r1 := AllocNode(g, p, true, w);
             r1.1 == Ok(true) &&
             AllocWithin(w.flags, r1.0.flags, {p} + Up(g, p, 0)) &&
             AllocWithin(r1.0.flags, AllocParents(g, n, j + 1, r1.0).0.flags, Up(g, n, j + 1))
    ensures AllocWithin(w.flags, AllocParents(g, n, j, w).0.flags, Up(g, n, j))
  {
    var p := ParentNode(g.net, InputsOf(g.net, n)[j]).value;
    var r1 := AllocNode(g, p, true, w);
    UpStep(g, n, j);
    AllocParentsStep(g, n, j, w);
    AllocWithinTrans(w.flags, r1.0.flags, AllocParents(g, n, j + 1, r1.0).0.flags, {p} + Up(g, p, 0), Up(g, n, j + 1));
  }

  /** The step of `AllocParentsWithin` at a parent that does not allocate. */
  lemma WithinStop(g: Acyclic, n: nat, j: nat, w: World)
    requires n < |g.net.nodes| && j < |InputsOf(g.net, n)| && Sized(g.net, w)
    requires ParentNode(g.net, InputsOf(g.net, n)[j]).Some?
    requires ParentNode(g.net, InputsOf(g.net, n)[j]).value < |g.net.nodes|
    requires var p := ParentNode(g.net, InputsOf(g.net, n)[j]).value;
             var r1 := AllocNode(g, p, true, w);
             r1.1 != Ok(true) && AllocWithin(w.flags, r1.0.flags, {p} + Up(g, p, 0))
    ensures AllocWithin(w.flags, AllocParents(g, n, j, w).0.flags, Up(g, n, j))
  {
    var p := ParentNode(g.net, InputsOf(g.net, n)[j]).value;
    UpStep(g, n, j);
    AllocParentsStop(g, n, j, w);
    AllocWithinMore(w.flags, AllocNode(g, p, true, w).0.flags, {p} + Up(g, p, 0), Up(g, n, j));
  }

  /** The step of `AllocParentsWithin` at an unconnected input. */
  lemma WithinUnbound(g: Acyclic, n: nat, j: nat, w: World)
    requires n < |g.net.nodes| && j < |InputsOf(g.net, n)| && Sized(g.net, w)
    requires ParentNode(g.net, InputsOf(g.net, n)[j]).None?
    ensures AllocWithin(w.flags, AllocParents(g, n, j, w).0.flags, Up(g, n, j))
  {
    assert AllocParents(g, n, j, w).0 == w;
  }

  /** A parent that allocates hands the loop on to the next input. */
  lemma AllocParentsStep(g: Acyclic, n: nat, j: nat, w: World)
    requires n < |g.net.nodes| && j < |InputsOf(g.net, n)| && Sized(g.net, w)
    requires ParentNode(g.net, InputsOf(g.net, n)[j]).Some?
    requires ParentNode(g.net, InputsOf(g.net, n)[j]).value < |g.net.nodes|
    requires AllocNode(g, ParentNode(g.net, InputsOf(g.net, n)[j]).value, true, w).1 == Ok(true)
    ensures var r1 := AllocNode(g, ParentNode(g.net, InputsOf(g.net, n)[j]).value, true, w);
            AllocParents(g, n, j, w) == AllocParents(g, n, j + 1, r1.0)
  {
  }

  /** A parent that does not allocate ends the loop with its result. */
  lemma AllocParentsStop(g: Acyclic, n: nat, j: nat, w: World)
    requires n < |g.net.nodes| && j < |InputsOf(g.net, n)| && Sized(g.net, w)
    requires ParentNode(g.net, InputsOf(g.net, n)[j]).Some?
    requires ParentNode(g.net, InputsOf(g.net, n)[j]).value < |g.net.nodes|
    requires AllocNode(g, ParentNode(g.net, InputsOf(g.net, n)[j]).value, true, w).1 != Ok(true)
    ensures AllocParents(g, n, j, w) == AllocNode(g, ParentNode(g.net, InputsOf(g.net, n)[j]).value, true, w)
  {
  }

  lemma AllocWithinMore(f0: seq<Flags>, f1: seq<Flags>, s1: set<nat>, s2: set<nat>)
    requires AllocWithin(f0, f1, s1) && s1 <= s2
    ensures AllocWithin(f0, f1, s2)
  {
  }

  /** The parents of `n` from the `j`-th input on are allocated and need no
      reallocation. */
  predicate ParentsAllocated(net: Net, n: nat, j: nat, f: seq<Flags>)
    requires Wired(net) && n < |net.nodes| && |f| == |net.nodes|
  {
    forall q :: j <= q < |InputsOf(net, n)| && ParentNode(net, InputsOf(net, n)[q]).Some? ==>
      f[ParentNode(net, InputsOf(net, n)[q]).value].isAllocated &&
      !f[ParentNode(net, InputsOf(net, n)[q]).value].needsReallocation
  }

  /** After a successful allocation with parents, every parent of a node
      that needed allocating is allocated. */
  lemma AllocParentsDone(g: Acyclic, n: nat, w: World)
    requires n < |g.net.nodes| && Sized(g.net, w)
    requires !(w.flags[n].isAllocated && !w.flags[n].needsReallocation)
    requires AllocNode(g, n, true, w).1.Ok?
    ensures ParentsAllocated(g.net, n, 0, AllocNode(g, n, true, w).0.flags)
  {
    var r1 := AllocParents(g, n, 0, w);
    AllocParentsAll(g, n, 0, w);
    var r := AllocNode(g, n, true, w).0.flags;
    forall q | 0 <= q < |InputsOf(g.net, n)| && ParentNode(g.net, InputsOf(g.net, n)[q]).Some?
      ensures r[ParentNode(g.net, InputsOf(g.net, n)[q]).value].isAllocated &&
              !r[ParentNode(g.net, InputsOf(g.net, n)[q]).value].needsReallocation
    {
      var p := ParentNode(g.net, InputsOf(g.net, n)[q]).value;
      ParentBelow(g, InputsOf(g.net, n)[q]);
      assert r[p] == r1.0.flags[p];
    }
  }

  lemma {:induction false} AllocParentsAll(g: Acyclic, n: nat, j: nat, w: World)
    requires n < |g.net.nodes| && j <= |InputsOf(g.net, n)| && Sized(g.net, w)
    requires AllocParents(g, n, j, w).1.Ok?
    ensures ParentsAllocated(g.net, n, j, AllocParents(g, n, j, w).0.flags)
    decreases |InputsOf(g.net, n)| - j, 1
  {
    if j < |InputsOf(g.net, n)| {
      var i := InputsOf(g.net, n)[j];
      if ParentNode(g.net, i).Some? {
        var p := ParentNode(g.net, i).value;
        ParentBelow(g, i);
        if AllocNode(g, p, true, w).1 == Ok(true) {
          AllocParentsAllOn(g, n, j, w);
        } else {
          AllocParentsStop(g, n, j, w);
        }
      }
    }
  }

  /** The case of `AllocParentsAll` where the `j`-th parent allocates and
      the walk goes on. */
  lemma {:induction false} AllocParentsAllOn(g: Acyclic, n: nat, j: nat, w: World)
    requires n < |g.net.nodes| && j < |InputsOf(g.net, n)| && Sized(g.net, w)
    requires ParentNode(g.net, InputsOf(g.net, n)[j]).Some?
    requires g.rank[ParentNode(g.net, InputsOf(g.net, n)[j]).value] < g.rank[n]
    requires AllocNode(g, ParentNode(g.net, InputsOf(g.net, n)[j]).value, true, w).1 == Ok(true)
    requires AllocParents(g, n, j, w).1.Ok?
    ensures ParentsAllocated(g.net, n, j, AllocParents(g, n, j, w).0.flags)
    decreases |InputsOf(g.net, n)| - j, 0
  {
    var p := ParentNode(g.net, InputsOf(g.net, n)[j]).value;
    var r1 := AllocNode(g, p, true, w);
    AllocParentsStep(g, n, j, w);
    var f := AllocParents(g, n, j + 1, r1.0).0.flags;
    AllocParentsAll(g, n, j + 1, r1.0);
    AllocParentsWithin(g, n, j + 1, r1.0);
    AllocWithinKeeps(r1.0.flags, f, Up(g, n, j + 1), p);
    ParentsAllocatedCons(g.net, n, j, f);
  }


  /** A node allocated before an allocation pass is allocated after it. */
  lemma AllocWithinKeeps(f0: seq<Flags>, f1: seq<Flags>, s: set<nat>, p: nat)
    requires AllocWithin(f0, f1, s) && p < |f0| && f0[p].isAllocated && !f0[p].needsReallocation
    ensures f1[p].isAllocated && !f1[p].needsReallocation
  {
  }

  lemma ParentsAllocatedCons(net: Net, n: nat, j: nat, f: seq<Flags>)
    requires Wired(net) && n < |net.nodes| && |f| == |net.nodes| && j < |InputsOf(net, n)|
    requires ParentsAllocated(net, n, j + 1, f)
    requires ParentNode(net, InputsOf(net, n)[j]).Some? ==>
               f[ParentNode(net, InputsOf(net, n)[j]).value].isAllocated &&
               !f[ParentNode(net, InputsOf(net, n)[j]).value].needsReallocation
    ensures ParentsAllocated(net, n, j, f)
  {
  }

  /** With parents to allocate, a node that needs allocating and has an
      unconnected input never succeeds. */
  lemma AllocUnbound(g: Acyclic, n: nat, q: nat, w: World)
    requires n < |g.net.nodes| && Sized(g.net, w)
    requires !(w.flags[n].isAllocated && !w.flags[n].needsReallocation)
    requires q < |InputsOf(g.net, n)| && ParentNode(g.net, InputsOf(g.net, n)[q]).None?
    ensures AllocNode(g, n, true, w).1.Err?
  {
    AllocParentsUnbound(g, n, 0, q, w);
  }

  lemma {:induction false} AllocParentsUnbound(g: Acyclic, n: nat, j: nat, q: nat, w: World)
    requires n < |g.net.nodes| && j <= q < |InputsOf(g.net, n)| && Sized(g.net, w)
    requires ParentNode(g.net, InputsOf(g.net, n)[q]).None?
    ensures AllocParents(g, n, j, w).1.Err?
    decreases |InputsOf(g.net, n)| - j
  {
    var i := InputsOf(g.net, n)[j];
    if j < q && ParentNode(g.net, i).Some? {
      var p := ParentNode(g.net, i).value;
      ParentBelow(g, i);
      var r1 := AllocNode(g, p, true, w);
      if r1.1 == Ok(true) {
        AllocParentsUnbound(g, n, j + 1, q, r1.0);
      }
    }
  }
}
