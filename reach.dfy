/** The nodes a walk over a net can reach: downwards through positional
    outputs and the inputs they feed (the order `taint`, `taint_type` and
    the `invalid` setters follow), and upwards through the parents of all
    inputs (the order `invalidate_parents`, `update_types` and `allocate`
    follow). */
module Reach {
  import opened Base
  import opened Links

  /** `n` and every node reached below it. */
  ghost function Down(g: Acyclic, n: nat): (s: set<nat>)
    requires n < |g.net.nodes|
    ensures n in s && forall k :: k in s ==> k < |g.net.nodes|
    decreases |g.net.nodes| - g.rank[n], 2, 0
  {
    {n} + DownKids(g, n, 0)
  }

  /** The nodes reached through the positional outputs of `n` from the
      `j`-th on. */
  ghost function DownKids(g: Acyclic, n: nat, j: nat): (s: set<nat>)
    requires n < |g.net.nodes| && j <= |g.net.nodes[n].outs.posList|
    ensures forall k :: k in s ==> k < |g.net.nodes|
    decreases |g.net.nodes| - g.rank[n], 1, |g.net.nodes[n].outs.posList| - j
  {
    if j == |g.net.nodes[n].outs.posList| then {}
    else DownInputs(g, OutAt(g.net, n, j), 0) + DownKids(g, n, j + 1)
  }

  /** The nodes reached through the child inputs of output `o` from the
      `q`-th on. */
  ghost function DownInputs(g: Acyclic, o: nat, q: nat): (s: set<nat>)
    requires o < |g.net.outputs| && q <= |g.net.outputs[o].childInputs|
    ensures forall k :: k in s ==> k < |g.net.nodes|
    decreases |g.net.nodes| - g.rank[g.net.outputs[o].node], 0, |g.net.outputs[o].childInputs| - q
  {
    if q == |g.net.outputs[o].childInputs| then {}
    else Down(g, InputNode(g.net, g.net.outputs[o].childInputs[q])) + DownInputs(g, o, q + 1)
  }

  /** The connected parents of the inputs of `n` from the `j`-th on
      (in `iter_all` order), and everything above them. */
  ghost function Up(g: Acyclic, n: nat, j: nat): (s: set<nat>)
    requires n < |g.net.nodes| && j <= |InputsOf(g.net, n)|
    ensures forall k :: k in s ==> k < |g.net.nodes|
    decreases g.rank[n], |InputsOf(g.net, n)| - j
  {
    if j == |InputsOf(g.net, n)| then {}
    else
      var i := InputsOf(g.net, n)[j];
      match ParentNode(g.net, i)
      case None => Up(g, n, j + 1)
      case Some(p) =>
        ParentBelow(g, i);
        {p} + Up(g, p, 0) + Up(g, n, j + 1)
  }

  /** `Up` from the `j`-th input of `n` whose parent is connected. */
  lemma UpStep(g: Acyclic, n: nat, j: nat)
    requires n < |g.net.nodes| && j < |InputsOf(g.net, n)| && ParentNode(g.net, InputsOf(g.net, n)[j]).Some?
    ensures var p := ParentNode(g.net, InputsOf(g.net, n)[j]).value;
            p < |g.net.nodes| && Up(g, n, j) == {p} + Up(g, p, 0) + Up(g, n, j + 1)
  {
    ParentBelow(g, InputsOf(g.net, n)[j]);
  }

  /** Every node reached below `n` other than `n` itself is ranked above
      it: a downward walk never comes back to its start. */
  lemma {:induction false} DownAbove(g: Acyclic, n: nat, k: nat)
    requires n < |g.net.nodes| && k in DownKids(g, n, 0)
    ensures g.rank[n] < g.rank[k]
  {
    DownKidsAbove(g, n, 0, k);
  }

  lemma {:induction false} DownKidsAbove(g: Acyclic, n: nat, j: nat, k: nat)
    requires n < |g.net.nodes| && j <= |g.net.nodes[n].outs.posList| && k in DownKids(g, n, j)
    ensures g.rank[n] < g.rank[k]
    decreases |g.net.nodes| - g.rank[n], 1, |g.net.nodes[n].outs.posList| - j
  {
    if k in DownInputs(g, OutAt(g.net, n, j), 0) {
      DownInputsAbove(g, OutAt(g.net, n, j), 0, k);
    } else {
      DownKidsAbove(g, n, j + 1, k);
    }
  }

  lemma {:induction false} DownInputsAbove(g: Acyclic, o: nat, q: nat, k: nat)
    requires o < |g.net.outputs| && q <= |g.net.outputs[o].childInputs| && k in DownInputs(g, o, q)
    ensures g.rank[g.net.outputs[o].node] < g.rank[k]
    decreases |g.net.nodes| - g.rank[g.net.outputs[o].node], 0, |g.net.outputs[o].childInputs| - q
  {
    var c := InputNode(g.net, g.net.outputs[o].childInputs[q]);
    if k in Down(g, c) {
      if k != c {
        DownKidsAbove(g, c, 0, k);
      }
    } else {
      DownInputsAbove(g, o, q + 1, k);
    }
  }

  /** Every node above `n` is ranked below it: an upward walk never comes
      back to its start. */
  lemma {:induction false} UpBelow(g: Acyclic, n: nat, j: nat, k: nat)
    requires n < |g.net.nodes| && j <= |InputsOf(g.net, n)| && k in Up(g, n, j)
    ensures g.rank[k] < g.rank[n]
    decreases g.rank[n], |InputsOf(g.net, n)| - j
  {
    var i := InputsOf(g.net, n)[j];
    match ParentNode(g.net, i)
    case None =>
      UpBelow(g, n, j + 1, k);
    case Some(p) =>
      ParentBelow(g, i);
      if k in Up(g, p, 0) {
        UpBelow(g, p, 0, k);
      } else if k != p {
        UpBelow(g, n, j + 1, k);
      }
  }
}
