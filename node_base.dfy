/** The connection operators and accessors shared by nodes
    (src/dagflow/core/node_base.py) and the output's `>>`
    (src/dagflow/core/output.py `__rshift__`), as functions on a `Board`.
    A parameter stands for its connectible output; `None` there is a
    parameter without one. */
module NodeBase {
  import opened Base
  import opened Links
  import opened Wiring
  import opened NodeBuild
  import Edges
  import IS = InputStrategy
  import Formatters

  /** What the `input_strategy` setter may be given: None, a strategy
      instance, a class (`None` when it does not derive from the base
      strategy), or a value that is not a class at all. */
  datatype StrategyArg = SNone | SInstance(s: IS.Strategy) | SClass(k: Option<IS.Kind>) | SValue

  /** The `input_strategy` setter: None installs the base strategy, an
      instance is installed as it is, a strategy class is instantiated with
      its defaults; any other class is refused with InitializationError,
      and `issubclass` raises TypeError on a value that is not a class. */
  function SetStrategy(b: Board, n: nat, a: StrategyArg): (r: Result<Board>)
    requires Fit(b) && n < |b.net.nodes|
    ensures r.Ok? ==> |r.value.strategies| == |b.strategies| && r.value == b.(strategies := b.strategies[n := r.value.strategies[n]])
    ensures r.Ok? ==> Fit(r.value)
    ensures a.SNone? ==> r.Ok? && r.value.strategies[n].kind.BaseStrategy? && r.value.strategies[n].scope == Some(0)
    ensures a.SInstance? ==> r.Ok? && r.value.strategies[n] == a.s
    ensures a.SClass? && a.k.Some? ==> r.Ok? && r.value.strategies[n].kind == a.k.value && r.value.strategies[n].scope == Some(0)
    ensures a.SClass? && a.k.None? ==> r == Err(InitializationError)
    ensures a.SValue? ==> r == Err(TypeError)
  {
    match a
    case SNone => Ok(b.(strategies := b.strategies[n := IS.Default]))
    case SInstance(s) => Ok(b.(strategies := b.strategies[n := s]))
    case SClass(k) =>
      if k.None? then Err(InitializationError)
      else
        (match IS.New(k.value, Formatters.AFormatter(IS.DefaultInputFmt), Formatters.AFormatter(IS.DefaultOutputFmt), false)
         case Ok(s) => Ok(b.(strategies := b.strategies[n := s]))
         case Err(e) => Err(e))
    case SValue => Err(TypeError)
  }

  /** Python truth value of a sub-key: 0, "" and the empty tuple are
      false; a slice is always true. */
  predicate Truthy(k: Edges.Key)
  {
    match k
    case KStr(s) => s != ""
    case KInt(i) => i != 0
    case KSlice(_, _, _) => true
    case KSeq(ks) => ks != []
    case KOther => true
  }

  /** What `node[key]` yields: an item of the outputs, an item of the
      inputs, or a view over both. */
  datatype View = OutView(outs: Edges.Item) | InView(ins: Edges.Item) | BothView(ins: Edges.Item, outs: Edges.Item)

  /** A single int or str key taken as a one-element tuple. */
  function AsTuple(k: Edges.Key): (r: Edges.Key)
    ensures r.KSeq?
  {
    if k.KInt? || k.KStr? then Edges.KSeq([k]) else if k.KSeq? then k else Edges.KSeq([k])
  }

  /** `NodeBase.__getitem__(key)`: an int, slice or str indexes the
      outputs.  Otherwise the key must have length 2 (ValueError; a value
      with no length raises TypeError); a pair of true sub-keys gives a
      view over the selected inputs and outputs, a single true sub-key
      selects inputs or outputs, and two false ones raise ValueError. */
  function GetItem(ins: Edges.Edges, outs: Edges.Edges, key: Edges.Key): (r: Result<View>)
    ensures key.KInt? || key.KSlice? || key.KStr? ==>
              (r.Ok? <==> Edges.GetItem(outs, key).Ok?) && (r.Ok? ==> r.value == OutView(Edges.GetItem(outs, key).value))
    ensures key.KOther? ==> r == Err(TypeError)
    ensures key.KSeq? && |key.keys| != 2 ==> r == Err(ValueError)
    ensures key.KSeq? && |key.keys| == 2 && !Truthy(key.keys[0]) && !Truthy(key.keys[1]) ==> r == Err(ValueError)
    ensures key.KSeq? && |key.keys| == 2 && Truthy(key.keys[0]) && !Truthy(key.keys[1]) ==>
              (r.Ok? <==> Edges.GetItem(ins, key.keys[0]).Ok?) && (r.Ok? ==> r.value == InView(Edges.GetItem(ins, key.keys[0]).value))
    ensures key.KSeq? && |key.keys| == 2 && !Truthy(key.keys[0]) && Truthy(key.keys[1]) ==>
              (r.Ok? <==> Edges.GetItem(outs, key.keys[1]).Ok?) && (r.Ok? ==> r.value == OutView(Edges.GetItem(outs, key.keys[1]).value))
    ensures key.KSeq? && |key.keys| == 2 && Truthy(key.keys[0]) && Truthy(key.keys[1]) ==>
              (r.Ok? <==> Edges.GetItem(ins, AsTuple(key.keys[0])).Ok? && Edges.GetItem(outs, AsTuple(key.keys[1])).Ok?) &&
              (r.Ok? ==> r.value.BothView? && r.value.ins.Many? && |r.value.ins.items| == |AsTuple(key.keys[0]).keys| &&
                         r.value.outs.Many? && |r.value.outs.items| == |AsTuple(key.keys[1]).keys|)
  {
    match key
    case KInt(_) => var v :- Edges.GetItem(outs, key); Ok(OutView(v))
    case KSlice(_, _, _) => var v :- Edges.GetItem(outs, key); Ok(OutView(v))
    case KStr(_) => var v :- Edges.GetItem(outs, key); Ok(OutView(v))
    case KOther => Err(TypeError)
    case KSeq(ks) =>
      if |ks| != 2 then Err(ValueError)
      else if Truthy(ks[0]) && Truthy(ks[1]) then
        var vi :- Edges.GetItem(ins, AsTuple(ks[0]));
        var vo :- Edges.GetItem(outs, AsTuple(ks[1]));
        Ok(BothView(vi, vo))
      else if Truthy(ks[0]) then var v :- Edges.GetItem(ins, ks[0]); Ok(InView(v))
      else if Truthy(ks[1]) then var v :- Edges.GetItem(outs, ks[1]); Ok(OutView(v))
      else Err(ValueError)
  }

  /** `NodeBase.get(key, default)`: every exception gives the default. */
  function Get(ins: Edges.Edges, outs: Edges.Edges, key: Edges.Key, default: Option<View>): (r: Option<View>)
    ensures GetItem(ins, outs, key).Ok? ==> r == Some(GetItem(ins, outs, key).value)
    ensures GetItem(ins, outs, key).Err? ==> r == default
  {
    match GetItem(ins, outs, key)
    case Ok(v) => Some(v)
    case Err(_) => default
  }

  /** What `output >> x` may be given: an input, a node, a sequence (or
      the values of a mapping, in their walking order), or anything else. */
  datatype Target = ToInput(i: nat) | ToNode(n: nat) | ToSeq(items: seq<Target>) | ToOther

  /** Every input and node a target names exists. */
  predicate Aimed(net: Net, t: Target)
  {
    match t
    case ToInput(i) => i < |net.inputs|
    case ToNode(n) => n < |net.nodes|
    case ToSeq(items) => forall k :: 0 <= k < |items| ==> Aimed(net, items[k])
    case ToOther => true
  }

  /** A board `c` that extends `b`: the same nodes, and at least its
      inputs and outputs. */
  predicate Grows(b: Board, c: Board)
  {
    |c.net.nodes| == |b.net.nodes| && |c.net.inputs| >= |b.net.inputs| && |c.net.outputs| >= |b.net.outputs|
  }

  lemma AimedGrows(b: Board, c: Board, t: Target)
    requires Grows(b, c) && Aimed(b.net, t)
    ensures Aimed(c.net, t)
  {
    match t
    case ToSeq(items) =>
      forall k | 0 <= k < |items| ensures Aimed(c.net, items[k]) {
        AimedGrows(b, c, items[k]);
      }
    case _ =>
  }

  /** The scope the next `>>` into node `n` uses. */
  function NextScope(b: Board, n: nat): int
    requires n < |b.strategies|
  {
    IS.OrElse(b.strategies[n].scope, 0) + 1
  }

  /** `Output.__rshift__(target)`: an input is connected directly; a node
      gets the output with the next scope, which is then stored; a
      sequence is connected element by element, stopping at the first
      failure; anything else raises ConnectionError. */
  function Shift(b: Board, o: nat, t: Target): (r: (Board, Outcome))
    requires Fit(b) && o < |b.net.outputs| && Aimed(b.net, t)
    ensures Fit(r.0) && Grows(b, r.0)
    ensures t.ToOther? ==> r == (b, Fail(ConnectionError))
    ensures t.ToInput? ==> (r.1.Pass? <==> Connect(b, o, t.i).Ok?) && (r.1.Pass? ==> r.0 == Connect(b, o, t.i).value)
    ensures t.ToNode? ==> r == ConnectToNode(b, o, t.n, NextScope(b, t.n), true)
    ensures t.ToSeq? && t.items == [] ==> r == (b, Pass)
    decreases t, 1
  {
    match t
    case ToInput(i) =>
      (match Connect(b, o, i)
       case Err(e) => (b, Fail(e))
       case Ok(b1) => (b1, Pass))
    case ToNode(n) => ConnectToNode(b, o, n, NextScope(b, n), true)
    case ToSeq(items) => ShiftAll(b, o, items, 0)
    case ToOther => (b, Fail(ConnectionError))
  }

  function ShiftAll(b: Board, o: nat, items: seq<Target>, j: nat): (r: (Board, Outcome))
    requires Fit(b) && o < |b.net.outputs| && j <= |items|
    requires forall k :: 0 <= k < |items| ==> Aimed(b.net, items[k])
    ensures Fit(r.0) && Grows(b, r.0)
    ensures j == |items| ==> r == (b, Pass)
    decreases ToSeq(items), 0, |items| - j
  {
    if j == |items| then (b, Pass)
    else
      assert items[j] in items;
      var r1 := Shift(b, o, items[j]);
      if r1.1.Fail? then r1
      else
        forall k | 0 <= k < |items| ensures Aimed(r1.0.net, items[k]) {
          AimedGrows(b, r1.0, items[k]);
        }
        ShiftAll(r1.0, o, items, j + 1)
  }

  /** `>>` keeps every connection's two directions in agreement, whatever
      it is given. */
  lemma ShiftKeepsLinked(b: Board, o: nat, t: Target)
    requires Fit(b) && o < |b.net.outputs| && Aimed(b.net, t) && Linked(b.net)
    ensures Linked(Shift(b, o, t).0.net)
    decreases t, 1
  {
    match t
    case ToInput(i) =>
      if Connect(b, o, i).Ok? {
        ConnectKeepsLinked(b, o, i);
      }
    case ToNode(n) => ConnectToNodeKeepsLinked(b, o, n, NextScope(b, n), true);
    case ToSeq(items) => ShiftAllKeepsLinked(b, o, items, 0);
    case ToOther =>
  }

  lemma ShiftAllKeepsLinked(b: Board, o: nat, items: seq<Target>, j: nat)
    requires Fit(b) && o < |b.net.outputs| && j <= |items| && Linked(b.net)
    requires forall k :: 0 <= k < |items| ==> Aimed(b.net, items[k])
    ensures Linked(ShiftAll(b, o, items, j).0.net)
    decreases ToSeq(items), 0, |items| - j
  {
    if j < |items| {
      assert items[j] in items;
      ShiftKeepsLinked(b, o, items[j]);
      var r1 := Shift(b, o, items[j]);
      if r1.1.Pass? {
        forall k | 0 <= k < |items| ensures Aimed(r1.0.net, items[k]) {
          AimedGrows(b, r1.0, items[k]);
        }
        ShiftAllKeepsLinked(r1.0, o, items, j + 1);
      }
    }
  }

  /** `output >> input` through a sequence of inputs: after a successful
      `>>`, each input of the sequence has the output as its parent. */
  lemma ShiftAllConnects(b: Board, o: nat, items: seq<Target>, j: nat)
    requires Fit(b) && o < |b.net.outputs| && j <= |items| && Linked(b.net)
    requires forall k :: 0 <= k < |items| ==> items[k].ToInput? && items[k].i < |b.net.inputs|
    requires ShiftAll(b, o, items, j).1.Pass?
    ensures forall k :: j <= k < |items| ==> ShiftAll(b, o, items, j).0.net.inputs[items[k].i].parent == Some(o)
    decreases |items| - j
  {
    if j < |items| {
      var r1 := Shift(b, o, items[j]);
      forall k | 0 <= k < |items| ensures Aimed(r1.0.net, items[k]) {
        AimedGrows(b, r1.0, items[k]);
      }
      ConnectKeepsLinked(b, o, items[j].i);
      ShiftAllConnects(r1.0, o, items, j + 1);
      KeepsParents(r1.0, o, items, j + 1, items[j].i);
    }
  }

  /** A run of connections leaves the parent of an already connected
      input alone. */
  lemma KeepsParents(b: Board, o: nat, items: seq<Target>, j: nat, i: nat)
    requires Fit(b) && o < |b.net.outputs| && j <= |items| && i < |b.net.inputs| && InputConnected(b.net, i)
    requires forall k :: 0 <= k < |items| ==> items[k].ToInput? && items[k].i < |b.net.inputs|
    ensures ShiftAll(b, o, items, j).0.net.inputs[i] == b.net.inputs[i]
    decreases |items| - j
  {
    if j < |items| {
      var r1 := Shift(b, o, items[j]);
      forall k | 0 <= k < |items| ensures Aimed(r1.0.net, items[k]) {
        AimedGrows(b, r1.0, items[k]);
      }
      if r1.1.Pass? {
        assert r1.0.net.inputs[i] == b.net.inputs[i];
        KeepsParents(r1.0, o, items, j + 1, i);
      }
    }
  }

  /** `node >> target`: allowed only for a node with exactly one output,
      which is then shifted into the target; otherwise ConnectionError. */
  function NodeShift(b: Board, n: nat, t: Target): (r: (Board, Outcome))
    requires Fit(b) && n < |b.net.nodes| && Aimed(b.net, t)
    ensures Fit(r.0)
    ensures Edges.LenAll(b.net.nodes[n].outs) != 1 ==> r == (b, Fail(ConnectionError))
    ensures Edges.LenAll(b.net.nodes[n].outs) == 1 ==>
              var d := b.net.nodes[n].outs.all;
              d.keys[0] in d.m && d.m[d.keys[0]].Single? && 0 <= d.m[d.keys[0]].handle < |b.net.outputs| &&
              b.net.outputs[d.m[d.keys[0]].handle].node == n &&
              r == Shift(b, d.m[d.keys[0]].handle, t)
  {
    var d := b.net.nodes[n].outs.all;
    if |d.keys| != 1 then (b, Fail(ConnectionError))
    else
      assert d.keys[0] in d.keys && AllOutsOf(b.net, n);
      Shift(b, d.m[d.keys[0]].handle, t)
  }

  /** What `sources >> node` may be given on its left: an output, a
      parameter (`None`: one without a connectible output), a node, or
      anything else. */
  datatype Source = FromOutput(o: nat) | FromParameter(p: Option<nat>) | FromNode(m: nat) | FromOther

  /** Every output and node a source names exists. */
  predicate Sourced(net: Net, s: Source)
  {
    match s
    case FromOutput(o) => o < |net.outputs|
    case FromParameter(p) => p.Some? ==> p.value < |net.outputs|
    case FromNode(m) => m < |net.nodes|
    case FromOther => true
  }

  /** The output a source offers, or the error taking it raises: a node
      must have exactly one output (ConnectionError) and it is taken as its
      first positional one (IndexError when there is none). */
  function SourceOutput(b: Board, s: Source): (r: Result<nat>)
    requires Fit(b) && Sourced(b.net, s)
    ensures r.Ok? ==> r.value < |b.net.outputs|
    ensures s.FromOutput? ==> r == Ok(s.o)
    ensures s.FromOther? ==> r == Err(ConnectionError)
    ensures s.FromParameter? ==> r == if s.p.Some? then Ok(s.p.value) else Err(AttributeError)
    ensures s.FromNode? && Edges.LenAll(b.net.nodes[s.m].outs) != 1 ==> r == Err(ConnectionError)
  {
    match s
    case FromOutput(o) => Ok(o)
    case FromParameter(p) => if p.Some? then Ok(p.value) else Err(AttributeError)
    case FromNode(m) =>
      if Edges.LenAll(b.net.nodes[m].outs) != 1 then Err(ConnectionError)
      else if |b.net.nodes[m].outs.posList| == 0 then Err(IndexError)
      else Ok(OutAt(b.net, m, 0))
    case FromOther => Err(ConnectionError)
  }

  /** `sources >> node`: one scope, the node's next, is shared by all the
      sources; each source's output is bound to the node without storing
      it, and once all are bound the scope is stored.  A value that is not
      a sequence raises ConnectionError.  `None` is that value. */
  function RShiftInto(b: Board, n: nat, srcs: Option<seq<Source>>): (r: (Board, Outcome))
    requires Fit(b) && n < |b.net.nodes| && (srcs.Some? ==> forall k :: 0 <= k < |srcs.value| ==> Sourced(b.net, srcs.value[k]))
    ensures Fit(r.0) && Grows(b, r.0)
    ensures srcs.None? ==> r == (b, Fail(ConnectionError))
    ensures r.1.Pass? ==> r.0.strategies[n].scope == Some(NextScope(b, n))
  {
    if srcs.None? then (b, Fail(ConnectionError))
    else
      var scope := NextScope(b, n);
      var t := BindAll(b, n, srcs.value, 0, scope);
      if t.1.Fail? then t
      else (t.0.(strategies := t.0.strategies[n := t.0.strategies[n].(scope := Some(scope))]), Pass)
  }

  /** The loop of `sources >> node` from the `j`-th source on. */
  function BindAll(b: Board, n: nat, srcs: seq<Source>, j: nat, scope: int): (r: (Board, Outcome))
    requires Fit(b) && n < |b.net.nodes| && j <= |srcs| && forall k :: 0 <= k < |srcs| ==> Sourced(b.net, srcs[k])
    ensures Fit(r.0) && Grows(b, r.0)
    ensures r.1.Pass? ==> |r.0.net.inputs| - |b.net.inputs| <= |srcs| - j
    decreases |srcs| - j
  {
    if j == |srcs| then (b, Pass)
    else
      match SourceOutput(b, srcs[j])
      case Err(e) => (b, Fail(e))
      case Ok(o) =>
        var r1 := ConnectToNode(b, o, n, scope, false);
        if r1.1.Fail? then r1
        else
          SourcedGrows(b, r1.0, srcs);
          var r := BindAll(r1.0, n, srcs, j + 1, scope);
          GrowsTrans(b, r1.0, r.0);
          r
  }

  lemma GrowsTrans(b: Board, c: Board, d: Board)
    requires Grows(b, c) && Grows(c, d)
    ensures Grows(b, d)
  {
  }

  /** A source valid in a net stays valid in a net grown from it. */
  lemma SourcedGrows(b: Board, c: Board, srcs: seq<Source>)
    requires Grows(b, c) && forall k :: 0 <= k < |srcs| ==> Sourced(b.net, srcs[k])
    ensures forall k :: 0 <= k < |srcs| ==> Sourced(c.net, srcs[k])
  {
    forall k | 0 <= k < |srcs| ensures Sourced(c.net, srcs[k]) {
      assert Sourced(b.net, srcs[k]);
    }
  }

  /** One turn of the `sources >> node` loop. */
  lemma BindAllStep(b: Board, n: nat, srcs: seq<Source>, j: nat, scope: int)
    requires Fit(b) && n < |b.net.nodes| && j < |srcs| && forall k :: 0 <= k < |srcs| ==> Sourced(b.net, srcs[k])
    requires SourceOutput(b, srcs[j]).Ok?
    ensures var r1 := ConnectToNode(b, SourceOutput(b, srcs[j]).value, n, scope, false);
            Fit(r1.0) && n < |r1.0.net.nodes| && (forall k :: 0 <= k < |srcs| ==> Sourced(r1.0.net, srcs[k])) &&
            BindAll(b, n, srcs, j, scope) == if r1.1.Fail? then r1 else BindAll(r1.0, n, srcs, j + 1, scope)
  {
    var r1 := ConnectToNode(b, SourceOutput(b, srcs[j]).value, n, scope, false);
    SourcedGrows(b, r1.0, srcs);
  }

  /** `sources >> node` keeps every connection's two directions in
      agreement. */
  lemma {:induction false} BindAllKeepsLinked(b: Board, n: nat, srcs: seq<Source>, j: nat, scope: int)
    requires Fit(b) && n < |b.net.nodes| && j <= |srcs| && forall k :: 0 <= k < |srcs| ==> Sourced(b.net, srcs[k])
    requires Linked(b.net)
    ensures Linked(BindAll(b, n, srcs, j, scope).0.net)
    decreases |srcs| - j
  {
    if j < |srcs| && SourceOutput(b, srcs[j]).Ok? {
      var o := SourceOutput(b, srcs[j]).value;
      ConnectToNodeKeepsLinked(b, o, n, scope, false);
      var r1 := ConnectToNode(b, o, n, scope, false);
      if r1.1.Pass? {
        forall k | 0 <= k < |srcs| ensures Sourced(r1.0.net, srcs[k]) {
          assert Sourced(b.net, srcs[k]);
        }
        BindAllKeepsLinked(r1.0, n, srcs, j + 1, scope);
      }
    }
  }

  /** What a storage holds under a name: an output, a parameter (`None`:
      one without a connectible output), or something else. */
  datatype Stored = SOutput(o: nat) | SParameter(p: Option<nat>) | SOther

  predicate Stocked(net: Net, st: map<string, Stored>)
  {
    forall k :: k in st ==> match st[k]
      case SOutput(o) => o < |net.outputs|
      case SParameter(p) => p.Some? ==> p.value < |net.outputs|
      case SOther => true
  }

  /** `node << storage`: for each name of the node's inputs, in insertion
      order, an output found under that name in the storage is connected to
      the input when it is not connected yet; a name the storage lacks is
      skipped and any other value raises ConnectionError. */
  function LShift(b: Board, n: nat, st: map<string, Stored>, j: nat): (r: (Board, Outcome))
    requires Fit(b) && n < |b.net.nodes| && Stocked(b.net, st) && j <= |b.net.nodes[n].ins.all.keys|
    ensures Fit(r.0) && r.0.net.nodes == b.net.nodes && |r.0.net.inputs| == |b.net.inputs| && |r.0.net.outputs| == |b.net.outputs|
    decreases |b.net.nodes[n].ins.all.keys| - j
  {
    var d := b.net.nodes[n].ins.all;
    if j == |d.keys| then (b, Pass)
    else
      var name := d.keys[j];
      if name !in st then LShift(b, n, st, j + 1)
      else
        var o := match st[name]
                 case SOutput(o) => Ok(o)
                 case SParameter(p) => if p.Some? then Ok(p.value) else Err(AttributeError)
                 case SOther => Err(ConnectionError);
        if o.Err? then (b, Fail(o.error))
        else
          assert name in d.keys && InsOf(b.net, n);
          var i := d.m[name].handle;
          if InputConnected(b.net, i) then LShift(b, n, st, j + 1)
          else match Connect(b, o.value, i)
            case Err(e) => (b, Fail(e))
            case Ok(b1) => LShift(b1, n, st, j + 1)
  }

  /** Every input of `b` that is connected has the same link in `c`. */
  ghost predicate KeepsLinks(b: Board, c: Board)
  {
    |c.net.inputs| == |b.net.inputs| &&
    forall i :: 0 <= i < |b.net.inputs| && InputConnected(b.net, i) ==> c.net.inputs[i] == b.net.inputs[i]
  }

  /** `node << storage` never touches an input that was already
      connected, whether it succeeds or stops on an error. */
  lemma {:induction false} LShiftKeeps(b: Board, n: nat, st: map<string, Stored>, j: nat)
    requires Fit(b) && n < |b.net.nodes| && Stocked(b.net, st) && j <= |b.net.nodes[n].ins.all.keys|
    ensures KeepsLinks(b, LShift(b, n, st, j).0)
    decreases |b.net.nodes[n].ins.all.keys| - j
  {
    var d := b.net.nodes[n].ins.all;
    if j < |d.keys| {
      var name := d.keys[j];
      assert name in d.keys && InsOf(b.net, n);
      if name in st && (st[name].SOutput? || (st[name].SParameter? && st[name].p.Some?)) {
        var o := if st[name].SOutput? then st[name].o else st[name].p.value;
        var i := d.m[name].handle;
        if InputConnected(b.net, i) {
          LShiftKeeps(b, n, st, j + 1);
        } else if Connect(b, o, i).Ok? {
          var b1 := Connect(b, o, i).value;
          LShiftKeeps(b1, n, st, j + 1);
          assert KeepsLinks(b, b1);
        }
      } else {
        LShiftKeeps(b, n, st, j + 1);
      }
    }
  }

  /** After a successful `node << storage`, every input whose name the
      storage maps to an output is connected, and an input that was
      already connected keeps its parent. */
  lemma {:induction false} LShiftBinds(b: Board, n: nat, st: map<string, Stored>, j: nat)
    requires Fit(b) && n < |b.net.nodes| && Stocked(b.net, st) && j <= |b.net.nodes[n].ins.all.keys|
    ensures var r := LShift(b, n, st, j);
            var d := b.net.nodes[n].ins.all;
            r.1.Pass? ==>
              (forall k :: j <= k < |d.keys| && d.keys[k] in st && !st[d.keys[k]].SOther? ==>
                 d.keys[k] in d.m && d.m[d.keys[k]].Single? && 0 <= d.m[d.keys[k]].handle < |r.0.net.inputs| &&
                 InputConnected(r.0.net, d.m[d.keys[k]].handle)) &&
              (forall i :: 0 <= i < |b.net.inputs| && InputConnected(b.net, i) ==> r.0.net.inputs[i] == b.net.inputs[i])
    decreases |b.net.nodes[n].ins.all.keys| - j
  {
    LShiftKeeps(b, n, st, j);
    LShiftConnects(b, n, st, j);
  }

  /** The inputs of node `n` named from position `j` on whose name the
      storage maps to an output are connected in `c`. */
  ghost predicate NamedBound(b: Board, n: nat, st: map<string, Stored>, j: nat, c: Board)
    requires n < |b.net.nodes|
  {
    var d := b.net.nodes[n].ins.all;
    forall k :: j <= k < |d.keys| && d.keys[k] in st && !st[d.keys[k]].SOther? ==>
      d.keys[k] in d.m && d.m[d.keys[k]].Single? && 0 <= d.m[d.keys[k]].handle < |c.net.inputs| &&
      InputConnected(c.net, d.m[d.keys[k]].handle)
  }

  /** The first half of `LShiftBinds`: the named inputs end up connected. */
  lemma {:induction false} LShiftConnects(b: Board, n: nat, st: map<string, Stored>, j: nat)
    requires Fit(b) && n < |b.net.nodes| && Stocked(b.net, st) && j <= |b.net.nodes[n].ins.all.keys|
    ensures var r := LShift(b, n, st, j);
            var d := b.net.nodes[n].ins.all;
            r.1.Pass? ==>
              forall k :: j <= k < |d.keys| && d.keys[k] in st && !st[d.keys[k]].SOther? ==>
                 d.keys[k] in d.m && d.m[d.keys[k]].Single? && 0 <= d.m[d.keys[k]].handle < |r.0.net.inputs| &&
                 InputConnected(r.0.net, d.m[d.keys[k]].handle)
    decreases |b.net.nodes[n].ins.all.keys| - j
  {
    var r := LShift(b, n, st, j);
    if r.1.Pass? {
      LShiftConnectsStep(b, n, st, j);
      assert NamedBound(b, n, st, j, r.0);
    }
  }

  /** The connecting step of `node << storage`: input `i` of name `j`,
      just connected in `b1`, stays connected in the final board `c`. */
  lemma LinkedStaysBound(b: Board, b1: Board, n: nat, st: map<string, Stored>, j: nat, c: Board)
    requires n < |b.net.nodes| && j < |b.net.nodes[n].ins.all.keys| && b1.net.nodes == b.net.nodes
    requires var d := b.net.nodes[n].ins.all;
             d.keys[j] in d.m && d.m[d.keys[j]].Single? && 0 <= d.m[d.keys[j]].handle < |b1.net.inputs| &&
             InputConnected(b1.net, d.m[d.keys[j]].handle)
    requires NamedBound(b1, n, st, j + 1, c) && KeepsLinks(b1, c)
    ensures NamedBound(b, n, st, j, c)
  {
  }

  /** The step of `LShiftConnectsStep` that connects output `o` to the
      unconnected input `i` of name `j`, given the claim for the rest. */
  lemma ConnectedStaysBound(b: Board, n: nat, st: map<string, Stored>, j: nat, o: nat, i: nat)
    requires Fit(b) && n < |b.net.nodes| && Stocked(b.net, st) && j < |b.net.nodes[n].ins.all.keys|
    requires var d := b.net.nodes[n].ins.all;
             var name := d.keys[j];
             name in st && (st[name].SOutput? || (st[name].SParameter? && st[name].p.Some?)) &&
             o == (if st[name].SOutput? then st[name].o else st[name].p.value) &&
             name in d.m && d.m[name].Single? && i == d.m[name].handle
    requires o < |b.net.outputs| && i < |b.net.inputs| && !InputConnected(b.net, i)
    requires LShift(b, n, st, j).1.Pass?
    requires Connect(b, o, i).Ok?
    requires var b1 := Connect(b, o, i).value;
             Fit(b1) && n < |b1.net.nodes| && Stocked(b1.net, st) && j + 1 <= |b1.net.nodes[n].ins.all.keys| &&
             (LShift(b1, n, st, j + 1).1.Pass? ==> NamedBound(b1, n, st, j + 1, LShift(b1, n, st, j + 1).0))
    ensures NamedBound(b, n, st, j, LShift(b, n, st, j).0)
  {
    var b1 := Connect(b, o, i).value;
    var r := LShift(b, n, st, j);
    assert r == LShift(b1, n, st, j + 1);
    LShiftKeeps(b1, n, st, j + 1);
    LinkedStaysBound(b, b1, n, st, j, r.0);
  }

  /** One step of `LShiftConnects`, stated with `NamedBound`. */
  lemma {:induction false} LShiftConnectsStep(b: Board, n: nat, st: map<string, Stored>, j: nat)
    requires Fit(b) && n < |b.net.nodes| && Stocked(b.net, st) && j <= |b.net.nodes[n].ins.all.keys|
    ensures LShift(b, n, st, j).1.Pass? ==> NamedBound(b, n, st, j, LShift(b, n, st, j).0)
    decreases |b.net.nodes[n].ins.all.keys| - j
  {
    var d := b.net.nodes[n].ins.all;
    var r := LShift(b, n, st, j);
    if j < |d.keys| && r.1.Pass? {
      var name := d.keys[j];
      assert name in d.keys && InsOf(b.net, n);
      if name in st && (st[name].SOutput? || (st[name].SParameter? && st[name].p.Some?)) {
        var o := if st[name].SOutput? then st[name].o else st[name].p.value;
        var i := d.m[name].handle;
        if InputConnected(b.net, i) {
          assert r == LShift(b, n, st, j + 1);
          LShiftConnectsStep(b, n, st, j + 1);
          LShiftKeeps(b, n, st, j + 1);
          assert InputConnected(r.0.net, i);
        } else {
          var b1 := Connect(b, o, i).value;
          LShiftConnectsStep(b1, n, st, j + 1);
          ConnectedStaysBound(b, n, st, j, o, i);
        }
      } else {
        assert r == LShift(b, n, st, j + 1);
        LShiftConnectsStep(b, n, st, j + 1);
      }
    }
  }
}
