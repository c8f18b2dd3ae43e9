/** A parameter (dagflow/parameters/parameter.py): one element, at index
    `idx`, of the array held by its common output, the outputs through which
    it is read and connected, and a stack of saved values for temporary
    changes.

    Writing the value goes through `Output.seti`, which does nothing while the
    output's node is frozen; whether it is frozen is given as a parameter. */
module Parameter {
  import opened Base

  // ---------------------------------------------------------------------
  // Construction

  /** An output of the graph, by handle, or the one-element
      `View(start=idx, length=1)` made of one. */
  datatype OutRef = Out(handle: int) | ElementView(of: int, start: int)

  /** What `__init__` decides: the index, the output the value is read from,
      the output other nodes connect to (if any), and whether a view was made. */
  datatype Wiring = Wiring(idx: int, valueOutput: OutRef, connectible: Option<OutRef>, hasView: bool)

  /** `__init__`: the common connectible output is `connectible` if given,
      else `value_output`; without an index the parameter is element 0 of it;
      with an index it is read through a one-element view, or, without
      `make_view`, straight from `value_output` and cannot be connected. */
  function Wire(valueOutput: int, idx: Option<int>, connectible: Option<int>, makeView: bool): (w: Wiring)
    ensures w.connectible.Some? ==> w.connectible.value == w.valueOutput
    ensures idx.None? ==> w.idx == 0 && !w.hasView && w.connectible.Some? &&
                          w.valueOutput == Out(if connectible.Some? then connectible.value else valueOutput)
    ensures idx.Some? ==> w.idx == idx.value
    ensures idx.Some? && makeView ==> w.hasView && w.connectible.Some? &&
                                      w.valueOutput == ElementView(if connectible.Some? then connectible.value else valueOutput, idx.value)
    ensures idx.Some? && !makeView ==> !w.hasView && w.connectible.None? && w.valueOutput == Out(valueOutput)
  {
    var common := if connectible.Some? then connectible.value else valueOutput;
    if idx.None? then Wiring(0, Out(common), Some(Out(common)), false)
    else if makeView then Wiring(idx.value, ElementView(common, idx.value), Some(ElementView(common, idx.value)), true)
    else Wiring(idx.value, Out(valueOutput), None, false)
  }

  /** The labels of the node of the connectible output that `name` reads. */
  datatype OutLabels = OutLabels(paths: seq<string>, nodeName: string)

  /** `name`: empty without a connectible output, else the first label path
      when there is a non-empty one, else the node's name. */
  function Name(connectible: Option<OutLabels>): (r: string)
    ensures connectible.None? ==> r == ""
    ensures connectible.Some? && |connectible.value.paths| > 0 && connectible.value.paths[0] != "" ==>
              r == connectible.value.paths[0]
    ensures connectible.Some? && (|connectible.value.paths| == 0 || connectible.value.paths[0] == "") ==>
              r == connectible.value.nodeName
  {
    if connectible.None? then ""
    else
      var path := if |connectible.value.paths| > 0 then connectible.value.paths[0] else "";
      if path != "" then path else connectible.value.nodeName
  }

  /** `>>`: the connectible output is connected onwards; without one,
      RuntimeError. */
  function Shift(w: Wiring): (r: Result<OutRef>)
    ensures r.Err? <==> w.connectible.None?
    ensures r.Err? ==> r.error == RuntimeError
  {
    if w.connectible.None? then Err(RuntimeError) else Ok(w.connectible.value)
  }

  /** So `>>` fails exactly for a parameter made with an index and without
      `make_view`, and otherwise connects the output its value is read from. */
  lemma ShiftConnectsValueOutput(valueOutput: int, idx: Option<int>, connectible: Option<int>, makeView: bool)
    ensures Shift(Wire(valueOutput, idx, connectible, makeView)).Err? <==> idx.Some? && !makeView
    ensures Shift(Wire(valueOutput, idx, connectible, makeView)).Ok? ==>
              Shift(Wire(valueOutput, idx, connectible, makeView)).value == Wire(valueOutput, idx, connectible, makeView).valueOutput
  {
  }

  // ---------------------------------------------------------------------
  // The value and its stack

  /** The argument of `push`: none, a number, or anything else. */
  datatype Arg = NoValue | Number(x: real) | NotNumber

  /** The current value and the saved values, most recent last. */
  datatype Saved = Saved(value: real, stack: seq<real>)

  /** The `value` setter: `seti` writes unless the node is frozen. */
  function SetValue(s: Saved, x: real, frozen: bool): (r: Saved)
    ensures r.stack == s.stack
    ensures r.value == (if frozen then s.value else x)
  {
    if frozen then s else Saved(x, s.stack)
  }

  /** `push(other)`: the current value is saved first; a number is then set,
      anything else raises RuntimeError; the result is the value after. */
  function Pushed(s: Saved, other: Arg, frozen: bool): (r: (Saved, Result<real>))
    ensures r.0.stack == s.stack + [s.value]
    ensures other.NotNumber? ==> r.1 == Err(RuntimeError) && r.0.value == s.value
    ensures other.Number? ==> r.0.value == (if frozen then s.value else other.x)
    ensures other.NoValue? ==> r.0.value == s.value
    ensures !other.NotNumber? ==> r.1 == Ok(r.0.value)
  {
    var saved := Saved(s.value, s.stack + [s.value]);
    match other
    case NoValue => (saved, Ok(saved.value))
    case NotNumber => (saved, Err(RuntimeError))
    case Number(x) =>
      var after := SetValue(saved, x, frozen);
      (after, Ok(after.value))
  }

  /** `pop()`: the most recently saved value is taken off the stack and set;
      on an empty stack nothing changes.  The result is the value after. */
  function Popped(s: Saved, frozen: bool): (r: (Saved, real))
    ensures s.stack == [] ==> r.0 == s
    ensures s.stack != [] ==> r.0.stack == s.stack[..|s.stack| - 1]
    ensures s.stack != [] ==> r.0.value == (if frozen then s.value else s.stack[|s.stack| - 1])
    ensures r.1 == r.0.value
  {
    if s.stack == [] then (s, s.value)
    else
      var after := SetValue(Saved(s.value, s.stack[..|s.stack| - 1]), s.stack[|s.stack| - 1], frozen);
      (after, after.value)
  }

  /** A pop undoes a push, whatever was pushed, even when the push raised. */
  lemma PopUndoesPush(s: Saved, other: Arg, frozen: bool)
    ensures Popped(Pushed(s, other, frozen).0, frozen).0 == s
  {
    var pushed := Pushed(s, other, frozen).0;
    assert pushed.stack[..|pushed.stack| - 1] == s.stack;
  }

  /** Values set one after another. */
  function SetAll(s: Saved, xs: seq<real>, frozen: bool): (r: Saved)
    ensures r.stack == s.stack
    ensures frozen ==> r == s
    ensures !frozen && xs != [] ==> r.value == xs[|xs| - 1]
    decreases |xs|
  {
    if xs == [] then s else SetAll(SetValue(s, xs[0], frozen), xs[1..], frozen)
  }

  /** `with par:` — entering pushes, leaving pops — restores the value held
      on entry, whatever values were set inside the block. */
  lemma {:induction false} WithRestores(s: Saved, xs: seq<real>, frozen: bool)
    ensures Popped(SetAll(Pushed(s, NoValue, frozen).0, xs, frozen), frozen).0 == s
  {
    var entered := Pushed(s, NoValue, frozen).0;
    var inside := SetAll(entered, xs, frozen);
    assert inside.stack == s.stack + [s.value];
    assert inside.stack[..|inside.stack| - 1] == s.stack;
  }

  /** A push that raises still leaves the saved value on the stack: the
      value is unchanged but the stack is one deeper. */
  lemma RejectedPushGrowsStack(s: Saved, frozen: bool)
    ensures Pushed(s, NotNumber, frozen).1.Err?
    ensures Pushed(s, NotNumber, frozen).0 == Saved(s.value, s.stack + [s.value])
  {
  }

  // ---------------------------------------------------------------------
  // The object

  class Par {
    /** The array of the common output. */
    const values: array<real>
    const wiring: Wiring
    const idx: nat
    var stack: seq<real>

    ghost predicate Valid()
    {
      idx < values.Length && wiring.idx == idx
    }

    function State(): Saved
      requires Valid()
      reads this, values
    {
      Saved(values[idx], stack)
    }

    constructor(values: array<real>, valueOutput: int, idx: Option<int>, connectible: Option<int>, makeView: bool)
      requires idx.None? ==> values.Length > 0
      requires idx.Some? ==> 0 <= idx.value < values.Length
      ensures Valid()
      ensures this.values == values && wiring == Wire(valueOutput, idx, connectible, makeView)
      ensures stack == []
    {
      this.values := values;
      wiring := Wire(valueOutput, idx, connectible, makeView);
      this.idx := if idx.None? then 0 else idx.value;
      stack := [];
    }

    method Push(other: Arg, frozen: bool) returns (r: Result<real>)
      requires Valid()
      modifies this, values
      ensures Valid()
      ensures (State(), r) == Pushed(old(State()), other, frozen)
      ensures forall i :: 0 <= i < values.Length && i != idx ==> values[i] == old(values[i])
    {
      stack := stack + [values[idx]];
      match other {
        case NoValue =>
        case NotNumber =>
          return Err(RuntimeError);
        case Number(x) =>
          if !frozen {
            values[idx] := x;
          }
      }
      return Ok(values[idx]);
    }

    method Pop(frozen: bool) returns (r: real)
      requires Valid()
      modifies this, values
      ensures Valid()
      ensures (State(), r) == Popped(old(State()), frozen)
      ensures forall i :: 0 <= i < values.Length && i != idx ==> values[i] == old(values[i])
    {
      if |stack| > 0 {
        var last := stack[|stack| - 1];
        stack := stack[..|stack| - 1];
        if !frozen {
          values[idx] := last;
        }
      }
      return values[idx];
    }

    /** `__enter__`: `push()` with no value. */
    method Enter() returns (r: real)
      requires Valid()
      modifies this
      ensures Valid()
      ensures (State(), Ok(r)) == Pushed(old(State()), NoValue, false)
    {
      stack := stack + [values[idx]];
      return values[idx];
    }

    /** `__exit__`: `pop()`. */
    method Exit(frozen: bool) returns (r: real)
      requires Valid()
      modifies this, values
      ensures Valid()
      ensures (State(), r) == Popped(old(State()), frozen)
      ensures forall i :: 0 <= i < values.Length && i != idx ==> values[i] == old(values[i])
    {
      r := Pop(frozen);
    }
  }
}
