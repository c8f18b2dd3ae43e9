/** The copy type functions (src/dagflow/core/type_functions/copy_type_functions.py):
    the dtype, shape, edges and meshes of the selected inputs are written
    into the data descriptors of the selected outputs.

    Descriptors live in a `DataDescriptor.Table` indexed by output handle;
    an input is given by the handle of its parent output, whose descriptor
    it reads. */
module CopyTypes {
  import opened Base
  import opened DataDescriptor

  /** Which fields a copy writes. */
  datatype Fields = Fields(dtype: bool, shape: bool, edges: bool, meshes: bool)

  const DtypeOnly := Fields(true, false, false, false)
  const ShapeOnly := Fields(false, true, false, false)
  const EdgesOnly := Fields(false, false, true, false)

  /** The helpers the sequence caller runs for one pair (`cpy_dtype`,
      `cpy_shape`, `cpy_edges`, `cpy_meshes` of dagflow/typefunctions.py):
      each requested field of the output takes the input's value. */
  function CopyFields(src: Descriptor, dst: Descriptor, f: Fields): (r: Descriptor)
  {
    dst.(dtype := if f.dtype then src.dtype else dst.dtype,
         shape := if f.shape then src.shape else dst.shape,
         axesEdges := if f.edges then src.axesEdges else dst.axesEdges,
         axesMeshes := if f.meshes then src.axesMeshes else dst.axesMeshes)
  }

  /** Copying the same source twice is copying it once. */
  lemma CopyFieldsIdempotent(src: Descriptor, dst: Descriptor, f: Fields)
    ensures CopyFields(src, CopyFields(src, dst, f), f) == CopyFields(src, dst, f)
    ensures CopyFields(src, dst, Fields(false, false, false, false)) == dst
  {
  }

  /** Every field that is not requested, and both inherited flags, are
      as before. */
  predicate Kept(d: Descriptor, e: Descriptor, f: Fields)
  {
    (!f.dtype ==> e.dtype == d.dtype) && (!f.shape ==> e.shape == d.shape) &&
    (!f.edges ==> e.axesEdges == d.axesEdges) && (!f.meshes ==> e.axesMeshes == d.axesMeshes) &&
    e.edgesInherited == d.edgesInherited && e.meshesInherited == d.meshesInherited
  }

  predicate InRange(dds: seq<Descriptor>, hs: seq<nat>)
  {
    forall i :: 0 <= i < |hs| ==> hs[i] < |dds|
  }

  /** `repeat(inputs[0], len(outputs))` when exactly one input is selected. */
  function Sources(ins: seq<nat>, n: nat): (r: seq<nat>)
    ensures |ins| == 1 ==> |r| == n && forall k :: 0 <= k < n ==> r[k] == ins[0]
    ensures |ins| != 1 ==> r == ins
    ensures forall k :: 0 <= k < |r| ==> r[k] in ins
  {
    if |ins| == 1 then seq(n, _ => ins[0]) else ins
  }

  /** The loop over `zip(inputs, outputs, strict=True)` from pair `j` on:
      the pairs before the end of the shorter list are copied, then the
      strict zip raises ValueError if the lengths differ. */
  function CopyPairs(dds: seq<Descriptor>, src: seq<nat>, outs: seq<nat>, f: Fields, j: nat): (r: (seq<Descriptor>, Outcome))
    requires InRange(dds, src) && InRange(dds, outs) && j <= |src| && j <= |outs|
    ensures |r.0| == |dds|
    ensures r.1.Pass? <==> |src| == |outs|
    ensures r.1.Fail? ==> r.1.error == ValueError
    decreases |outs| - j
  {
    if j == |src| || j == |outs| then
      (dds, if |src| == |outs| then Pass else Fail(ValueError))
    else
      CopyPairs(dds[outs[j] := CopyFields(dds[src[j]], dds[outs[j]], f)], src, outs, f, j + 1)
  }

  /** A copy writes only the outputs, and only the requested fields. */
  lemma {:induction false} CopyPairsFrame(dds: seq<Descriptor>, src: seq<nat>, outs: seq<nat>, f: Fields, j: nat)
    requires InRange(dds, src) && InRange(dds, outs) && j <= |src| && j <= |outs|
    ensures var r := CopyPairs(dds, src, outs, f, j).0;
            (forall h :: 0 <= h < |dds| && h !in outs ==> r[h] == dds[h]) &&
            (forall h :: 0 <= h < |dds| ==> Kept(dds[h], r[h], f))
    decreases |outs| - j
  {
    if j < |src| && j < |outs| {
      CopyPairsFrame(dds[outs[j] := CopyFields(dds[src[j]], dds[outs[j]], f)], src, outs, f, j + 1);
    }
  }

  /** One source copied to every output after `j`: each of them ends up
      with the source's requested fields, the rest of the table as it was. */
  lemma {:induction false} CopyFromOne(dds: seq<Descriptor>, s: nat, src: seq<nat>, outs: seq<nat>, f: Fields, j: nat)
    requires InRange(dds, src) && InRange(dds, outs) && j <= |outs| && |src| == |outs|
    requires s < |dds| && s !in outs && forall k :: 0 <= k < |src| ==> src[k] == s
    ensures var r := CopyPairs(dds, src, outs, f, j).0;
            (forall k :: j <= k < |outs| ==> r[outs[k]] == CopyFields(dds[s], dds[outs[k]], f)) &&
            (forall h :: 0 <= h < |dds| && h !in outs[j..] ==> r[h] == dds[h])
    decreases |outs| - j
  {
    if j < |outs| {
      var o := outs[j];
      var next := dds[o := CopyFields(dds[s], dds[o], f)];
      CopyFromOne(next, s, src, outs, f, j + 1);
      var r := CopyPairs(dds, src, outs, f, j).0;
      assert r == CopyPairs(next, src, outs, f, j + 1).0;
      assert next[s] == dds[s];
      forall k | j <= k < |outs|
        ensures r[outs[k]] == CopyFields(dds[s], dds[outs[k]], f)
      {
        if outs[k] == o {
          CopyFieldsIdempotent(dds[s], dds[o], f);
          if o in outs[j + 1..] {
            var m :| j + 1 <= m < |outs| && outs[m] == o by {
              var i :| 0 <= i < |outs[j + 1..]| && outs[j + 1..][i] == o;
              assert outs[j + 1 + i] == o;
            }
            assert r[outs[m]] == CopyFields(next[s], next[outs[m]], f);
          } else {
            assert r[o] == next[o];
          }
        } else {
          assert k > j;
        }
      }
      forall h | 0 <= h < |dds| && h !in outs[j..]
        ensures r[h] == dds[h]
      {
        assert outs[j..] == [o] + outs[j + 1..];
      }
    }
  }

  /** `copy_dtype_from_inputs_to_outputs` and `copy_shape_from_inputs_to_outputs`
      on values: a single input is copied to every output, otherwise the
      inputs are paired with the outputs. */
  function CopyEach(dds: seq<Descriptor>, ins: seq<nat>, outs: seq<nat>, f: Fields): (r: (seq<Descriptor>, Outcome))
    requires InRange(dds, ins) && InRange(dds, outs)
    ensures r.1.Pass? <==> |ins| == 1 || |ins| == |outs|
    ensures |r.0| == |dds|
    ensures forall h :: 0 <= h < |dds| ==> Kept(dds[h], r.0[h], f)
    ensures forall h :: 0 <= h < |dds| && h !in outs ==> r.0[h] == dds[h]
  {
    var src := Sources(ins, |outs|);
    CopyPairsFrame(dds, src, outs, f, 0);
    CopyPairs(dds, src, outs, f, 0)
  }

  /** A single input, not itself among the outputs, is copied to every
      output and nothing else changes. */
  lemma SingleInputToAll(dds: seq<Descriptor>, i: nat, outs: seq<nat>, f: Fields)
    requires i < |dds| && InRange(dds, outs) && i !in outs
    ensures var (r, res) := CopyEach(dds, [i], outs, f);
            res == Pass &&
            (forall k :: 0 <= k < |outs| ==> r[outs[k]] == CopyFields(dds[i], dds[outs[k]], f)) &&
            (forall h :: 0 <= h < |dds| && h !in outs ==> r[h] == dds[h])
  {
    CopyFromOne(dds, i, Sources([i], |outs|), outs, f, 0);
    assert outs[0..] == outs;
  }

  /** One turn of the preference loop: the candidate `j` replaces the
      current choice unless it is not larger (with `prefer_largest_input`)
      or drops the edges already found (with `prefer_input_with_edges`).
      `newsize <= largest_size` is evaluated in every turn, so a missing
      size raises TypeError whatever the flags. */
  function PreferStep(dds: seq<Descriptor>, ins: seq<nat>, largest: bool, withEdges: bool, j: nat, best: nat): (r: Result<nat>)
    requires InRange(dds, ins) && j < |ins| && best < |ins|
    ensures r.Ok? ==> r.value == best || r.value == j
  {
    var newsize := Size(dds[ins[j]]);
    var size := Size(dds[ins[best]]);
    if newsize.None? || size.None? then Err(TypeError)
    else if newsize.value <= size.value && largest then Ok(best)
    else if withEdges && |dds[ins[best]].axesEdges| > 0 && |dds[ins[j]].axesEdges| == 0 then Ok(best)
    else Ok(j)
  }

  /** The preference loop from candidate `j` on, with `best` chosen so far. */
  function Prefer(dds: seq<Descriptor>, ins: seq<nat>, largest: bool, withEdges: bool, j: nat, best: nat): (r: Result<nat>)
    requires InRange(dds, ins) && j <= |ins| && best < |ins|
    ensures r.Ok? ==> r.value < |ins| && (r.value == best || j <= r.value)
    ensures r.Ok? <==> j == |ins| || (dds[ins[best]].shape.Some? && forall k :: j <= k < |ins| ==> dds[ins[k]].shape.Some?)
    ensures r.Err? ==> r.error == TypeError
    decreases |ins| - j
  {
    if j == |ins| then Ok(best)
    else
      match PreferStep(dds, ins, largest, withEdges, j, best)
      case Err(e) => Err(e)
      case Ok(b) => Prefer(dds, ins, largest, withEdges, j + 1, b)
  }

  /** Every selected input has a shape, hence a size. */
  predicate Sized(dds: seq<Descriptor>, ins: seq<nat>)
    requires InRange(dds, ins)
  {
    forall k :: 0 <= k < |ins| ==> dds[ins[k]].shape.Some?
  }

  /** The size of the `k`-th selected input. */
  function SizeAt(dds: seq<Descriptor>, ins: seq<nat>, k: nat): nat
    requires InRange(dds, ins) && k < |ins| && dds[ins[k]].shape.Some?
  {
    Size(dds[ins[k]]).value
  }

  predicate HasEdges(dds: seq<Descriptor>, ins: seq<nat>, k: nat)
    requires InRange(dds, ins) && k < |ins|
  {
    |dds[ins[k]].axesEdges| > 0
  }

  /** With `prefer_input_with_edges`, the choice never moves from an
      input with edges to one without. */
  lemma {:induction false} PreferKeepsEdges(dds: seq<Descriptor>, ins: seq<nat>, largest: bool, j: nat, best: nat)
    requires InRange(dds, ins) && j <= |ins| && best < |ins| && HasEdges(dds, ins, best)
    requires Prefer(dds, ins, largest, true, j, best).Ok?
    ensures HasEdges(dds, ins, Prefer(dds, ins, largest, true, j, best).value)
    decreases |ins| - j
  {
    if j < |ins| {
      PreferKeepsEdges(dds, ins, largest, j + 1, PreferStep(dds, ins, largest, true, j, best).value);
    }
  }

  /** With `prefer_input_with_edges` alone, the chosen input is the last
      one with edges when any has edges ... */
  lemma {:induction false} PreferEdgesOnly(dds: seq<Descriptor>, ins: seq<nat>, j: nat, best: nat)
    requires InRange(dds, ins) && j <= |ins| && best < |ins| && best < j
    requires Prefer(dds, ins, false, true, j, best).Ok?
    requires HasEdges(dds, ins, best) || exists k :: j <= k < |ins| && HasEdges(dds, ins, k)
    ensures var b := Prefer(dds, ins, false, true, j, best).value;
            HasEdges(dds, ins, b) && forall k :: j <= k < |ins| && b < k ==> !HasEdges(dds, ins, k)
    decreases |ins| - j
  {
    if j < |ins| {
      var b := PreferStep(dds, ins, false, true, j, best).value;
      if HasEdges(dds, ins, b) {
        PreferEdgesOnly(dds, ins, j + 1, b);
      } else {
        var k :| j <= k < |ins| && HasEdges(dds, ins, k);
        assert k != j;
        PreferEdgesOnly(dds, ins, j + 1, b);
      }
    }
  }

  /** ... and the last input when none has. */
  lemma {:induction false} PreferEdgesNone(dds: seq<Descriptor>, ins: seq<nat>, j: nat, best: nat)
    requires InRange(dds, ins) && j < |ins| && best < |ins| && best < j
    requires Prefer(dds, ins, false, true, j, best).Ok?
    requires !HasEdges(dds, ins, best) && forall k :: j <= k < |ins| ==> !HasEdges(dds, ins, k)
    ensures Prefer(dds, ins, false, true, j, best).value == |ins| - 1
    decreases |ins| - j
  {
    if j + 1 < |ins| {
      PreferEdgesNone(dds, ins, j + 1, j);
    }
  }

  /** With `prefer_input_with_edges` off, `prefer_largest_input` chooses
      the first input of the largest size: an input is chosen only when it
      is strictly larger than every input before it. */
  lemma {:induction false} PreferLargestFirst(dds: seq<Descriptor>, ins: seq<nat>, j: nat, best: nat)
    requires InRange(dds, ins) && 0 < j <= |ins| && best < j && Sized(dds, ins)
    requires forall k :: 0 <= k < j ==> SizeAt(dds, ins, k) <= SizeAt(dds, ins, best)
    requires forall k :: 0 <= k < best ==> SizeAt(dds, ins, k) < SizeAt(dds, ins, best)
    ensures var r := Prefer(dds, ins, true, false, j, best);
            r.Ok? &&
            (forall k :: 0 <= k < |ins| ==> SizeAt(dds, ins, k) <= SizeAt(dds, ins, r.value)) &&
            (forall k :: 0 <= k < r.value ==> SizeAt(dds, ins, k) < SizeAt(dds, ins, r.value))
    decreases |ins| - j
  {
    if j < |ins| {
      var b := PreferStep(dds, ins, true, false, j, best).value;
      assert b == j ==> SizeAt(dds, ins, j) > SizeAt(dds, ins, best);
      PreferLargestFirst(dds, ins, j + 1, b);
    }
  }

  /** `copy_from_inputs_to_outputs`: nothing happens when no field is
      requested; with a preference and several inputs one input is chosen
      and copied to every output; otherwise inputs are paired with outputs. */
  function CopyFromInputs(dds: seq<Descriptor>, ins: seq<nat>, outs: seq<nat>, f: Fields, largest: bool, withEdges: bool): (r: (seq<Descriptor>, Outcome))
    requires InRange(dds, ins) && InRange(dds, outs)
    ensures !(f.dtype || f.shape || f.edges || f.meshes) ==> r == (dds, Pass)
    ensures |r.0| == |dds|
    ensures forall h :: 0 <= h < |dds| ==> Kept(dds[h], r.0[h], f)
    ensures forall h :: 0 <= h < |dds| && h !in outs ==> r.0[h] == dds[h]
    ensures !(largest || withEdges) && (f.dtype || f.shape || f.edges || f.meshes) ==> r == CopyEach(dds, ins, outs, f)
  {
    if !(f.dtype || f.shape || f.edges || f.meshes) then (dds, Pass)
    else if (largest || withEdges) && |ins| > 1 then
      match Prefer(dds, ins, largest, withEdges, 1, 0)
      case Err(e) => (dds, Fail(e))
      case Ok(b) => CopyEach(dds, [ins[b]], outs, f)
    else CopyEach(dds, ins, outs, f)
  }

  /** With a preference, exactly one input is chosen, and (when it is not
      among the outputs) every output receives its requested fields. */
  lemma PreferenceCopiesChosen(dds: seq<Descriptor>, ins: seq<nat>, outs: seq<nat>, f: Fields, largest: bool, withEdges: bool)
    requires InRange(dds, ins) && InRange(dds, outs)
    requires (largest || withEdges) && |ins| > 1 && (f.dtype || f.shape || f.edges || f.meshes)
    requires Prefer(dds, ins, largest, withEdges, 1, 0).Ok?
    ensures var b := Prefer(dds, ins, largest, withEdges, 1, 0).value;
            var (r, res) := CopyFromInputs(dds, ins, outs, f, largest, withEdges);
            b < |ins| && res == Pass &&
            (ins[b] !in outs ==> forall k :: 0 <= k < |outs| ==> r[outs[k]] == CopyFields(dds[ins[b]], dds[outs[k]], f))
  {
    var b := Prefer(dds, ins, largest, withEdges, 1, 0).value;
    if ins[b] !in outs {
      SingleInputToAll(dds, ins[b], outs, f);
    }
  }

  /** The preference loop of `copy_from_inputs_to_outputs`, reading the
      table: the index of the chosen input. */
  method PreferredInput(t: Table, ins: seq<nat>, largest: bool, withEdges: bool) returns (r: Result<nat>)
    requires InRange(t.dds, ins) && |ins| > 1
    ensures r == Prefer(t.dds, ins, largest, withEdges, 1, 0)
  {
    var best := 0;
    var largestSize := Size(t.dds[ins[0]]);
    var foundEdges := |t.dds[ins[0]].axesEdges| > 0;
    var j := 1;
    while j < |ins|
      invariant 1 <= j <= |ins| && best < |ins|
      invariant largestSize == Size(t.dds[ins[best]])
      invariant foundEdges == (|t.dds[ins[best]].axesEdges| > 0)
      invariant Prefer(t.dds, ins, largest, withEdges, 1, 0) == Prefer(t.dds, ins, largest, withEdges, j, best)
    {
      var newsize := Size(t.dds[ins[j]]);
      if newsize.None? || largestSize.None? {
        return Err(TypeError);
      }
      if !(newsize.value <= largestSize.value && largest) && !(withEdges && foundEdges && |t.dds[ins[j]].axesEdges| == 0) {
        largestSize := newsize;
        best := j;
        foundEdges := |t.dds[ins[j]].axesEdges| > 0;
      }
      j := j + 1;
    }
    return Ok(best);
  }

  /** The copy loop over the pairs, writing the table. */
  method CopyLoop(t: Table, src: seq<nat>, outs: seq<nat>, f: Fields) returns (res: Outcome)
    requires InRange(t.dds, src) && InRange(t.dds, outs)
    modifies t
    ensures (t.dds, res) == CopyPairs(old(t.dds), src, outs, f, 0)
  {
    var dds := t.dds;
    ghost var spec := CopyPairs(dds, src, outs, f, 0);
    var j := 0;
    while j < |src| && j < |outs|
      invariant j <= |src| && j <= |outs| && InRange(dds, src) && InRange(dds, outs)
      invariant spec == CopyPairs(dds, src, outs, f, j)
    {
      var o := outs[j];
      dds := dds[o := CopyFields(dds[src[j]], dds[o], f)];
      j := j + 1;
    }
    res := if |src| != |outs| then Fail(ValueError) else Pass;
    assert spec == (dds, res);
    t.dds := dds;
  }

  /** `copy_from_inputs_to_outputs`. */
  method CopyFromInputsToOutputs(t: Table, ins: seq<nat>, outs: seq<nat>, f: Fields, largest: bool, withEdges: bool) returns (res: Outcome)
    requires InRange(t.dds, ins) && InRange(t.dds, outs)
    modifies t
    ensures (t.dds, res) == CopyFromInputs(old(t.dds), ins, outs, f, largest, withEdges)
  {
    if !(f.dtype || f.shape || f.edges || f.meshes) {
      return Pass;
    }
    var inputs := ins;
    if (largest || withEdges) && |ins| > 1 {
      var b := PreferredInput(t, ins, largest, withEdges);
      if b.Err? {
        return Fail(b.error);
      }
      inputs := [ins[b.value]];
    }
    res := CopyLoop(t, Sources(inputs, |outs|), outs, f);
  }

  /** `copy_dtype_from_inputs_to_outputs`. */
  method CopyDtype(t: Table, ins: seq<nat>, outs: seq<nat>) returns (res: Outcome)
    requires InRange(t.dds, ins) && InRange(t.dds, outs)
    modifies t
    ensures (t.dds, res) == CopyEach(old(t.dds), ins, outs, DtypeOnly)
  {
    res := CopyLoop(t, Sources(ins, |outs|), outs, DtypeOnly);
  }

  /** `copy_shape_from_inputs_to_outputs`. */
  method CopyShape(t: Table, ins: seq<nat>, outs: seq<nat>) returns (res: Outcome)
    requires InRange(t.dds, ins) && InRange(t.dds, outs)
    modifies t
    ensures (t.dds, res) == CopyEach(old(t.dds), ins, outs, ShapeOnly)
  {
    res := CopyLoop(t, Sources(ins, |outs|), outs, ShapeOnly);
  }

  /** The dtype and shape copies are the general copy restricted to one
      field and without preference. */
  lemma CopyDtypeShapeAreCopyFrom(dds: seq<Descriptor>, ins: seq<nat>, outs: seq<nat>)
    requires InRange(dds, ins) && InRange(dds, outs)
    ensures CopyEach(dds, ins, outs, DtypeOnly) == CopyFromInputs(dds, ins, outs, DtypeOnly, false, false)
    ensures CopyEach(dds, ins, outs, ShapeOnly) == CopyFromInputs(dds, ins, outs, ShapeOnly, false, false)
    ensures forall h :: 0 <= h < |dds| ==>
              CopyEach(dds, ins, outs, DtypeOnly).0[h].shape == dds[h].shape &&
              CopyEach(dds, ins, outs, ShapeOnly).0[h].dtype == dds[h].dtype
  {
  }
}
