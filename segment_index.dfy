/** The segment index node (dagflow/lib/interpolation/segment_index.py): for
    every fine point, the number of the coarse segment it falls in, found by
    numpy's `searchsorted` and then pulled inside the outermost edge when the
    point lies within a tolerance of it.  Point values are reals. */
module SegmentIndex {
  import opened Base

  /** The `side` of `searchsorted`, chosen by the node's `mode`. */
  datatype Side = Left | Right

  /** The node's `mode` argument: "left" or "right", anything else is an
      InitializationError. */
  function ParseMode(mode: string): (r: Result<Side>)
    ensures r.Ok? <==> mode == "left" || mode == "right"
    ensures r == Ok(Left) <==> mode == "left"
  {
    if mode == "left" then Ok(Left)
    else if mode == "right" then Ok(Right)
    else Err(InitializationError)
  }

  /** Strictly increasing. */
  predicate Increasing(s: seq<real>)
  {
    forall i, j :: 0 <= i < j < |s| ==> s[i] < s[j]
  }

  /** `_is_sorted`: each element is compared with the one before it. */
  method IsSorted(a: array<real>) returns (r: bool)
    requires a.Length > 0
    ensures r <==> Increasing(a[..])
  {
    var previous := a[0];
    var i := 1;
    while i < a.Length
      invariant 1 <= i <= a.Length
      invariant previous == a[i - 1]
      invariant forall p, q :: 0 <= p < q < i ==> a[p] < a[q]
    {
      var current := a[i];
      if current <= previous {
        assert a[..][i - 1] >= a[..][i];
        return false;
      }
      previous := current;
      i := i + 1;
    }
    return true;
  }

  /** The edges a point `v` is past: those below it (`left`) or not above
      it (`right`).  On a sorted array this is what `searchsorted` returns. */
  function Past(s: seq<real>, v: real, side: Side): (r: nat)
    ensures r <= |s|
  {
    if s == [] then 0
    else Past(s[..|s| - 1], v, side) + (if (side == Left && s[|s| - 1] < v) || (side == Right && s[|s| - 1] <= v) then 1 else 0)
  }

  /** On increasing edges the count is the insertion point: with `right`
      the point lies in `[s[k-1], s[k])`, with `left` in `(s[k-1], s[k]]`. */
  lemma {:induction false} PastBrackets(s: seq<real>, v: real, side: Side)
    requires Increasing(s)
    ensures var k := Past(s, v, side);
            (side == Right ==> (k > 0 ==> s[k - 1] <= v) && (k < |s| ==> v < s[k])) &&
            (side == Left ==> (k > 0 ==> s[k - 1] < v) && (k < |s| ==> v <= s[k]))
    decreases |s|
  {
    if s != [] {
      var t := s[..|s| - 1];
      assert Increasing(t) by {
        forall p, q | 0 <= p < q < |t| ensures t[p] < t[q] {
          assert t[p] == s[p] && t[q] == s[q];
        }
      }
      PastBrackets(t, v, side);
      var k := Past(t, v, side);
      if k < |t| {
        // the last edge is above the insertion point in `t`, so it is not counted
        assert s[k] == t[k] && s[k] < s[|s| - 1];
      }
      if k > 0 {
        assert s[k - 1] == t[k - 1];
      }
    }
  }

  /** `_shift_last_edge_inside_right` on values: an index one past the
      last edge is pulled back onto the last segment when the point is
      within `tol` of the last edge. */
  function ShiftedRight(idxs: seq<int>, fine: seq<real>, coarse: seq<real>, tol: real): (r: seq<int>)
    requires |fine| >= |idxs| && |coarse| > 0
    ensures |r| == |idxs|
  {
    seq(|idxs|, i requires 0 <= i < |idxs| =>
      if idxs[i] == |coarse| && fine[i] - tol <= coarse[|coarse| - 1] then |coarse| - 1 else idxs[i])
  }

  /** `_shift_last_edge_inside_left` on values: an index before the first
      edge is moved onto the first segment when the point is within `tol`
      of the first edge. */
  function ShiftedLeft(idxs: seq<int>, fine: seq<real>, coarse: seq<real>, tol: real): (r: seq<int>)
    requires |fine| >= |idxs| && |coarse| > 0
    ensures |r| == |idxs|
  {
    seq(|idxs|, i requires 0 <= i < |idxs| =>
      if idxs[i] == 0 && fine[i] + tol >= coarse[0] then 1 else idxs[i])
  }

  /** Only the entries one past the end move, and moving them again
      changes nothing. */
  lemma ShiftedRightOnlyOverflow(idxs: seq<int>, fine: seq<real>, coarse: seq<real>, tol: real)
    requires |fine| >= |idxs| && |coarse| > 0
    ensures var r := ShiftedRight(idxs, fine, coarse, tol);
            (forall i :: 0 <= i < |idxs| && r[i] != idxs[i] ==> idxs[i] == |coarse| && r[i] == |coarse| - 1) &&
            ShiftedRight(r, fine, coarse, tol) == r
  {
  }

  /** Only the entries before the start move, and moving them again
      changes nothing. */
  lemma ShiftedLeftOnlyUnderflow(idxs: seq<int>, fine: seq<real>, coarse: seq<real>, tol: real)
    requires |fine| >= |idxs| && |coarse| > 0
    ensures var r := ShiftedLeft(idxs, fine, coarse, tol);
            (forall i :: 0 <= i < |idxs| && r[i] != idxs[i] ==> idxs[i] == 0 && r[i] == 1) &&
            ShiftedLeft(r, fine, coarse, tol) == r
  {
  }

  /** `_shift_last_edge_inside_right`, in place. */
  method ShiftInsideRight(fine: array<real>, idxs: array<int>, coarse: array<real>, tol: real)
    requires fine.Length >= idxs.Length && coarse.Length > 0
    modifies idxs
    ensures idxs[..] == ShiftedRight(old(idxs[..]), fine[..], coarse[..], tol)
  {
    var overflow := coarse.Length;
    var last := coarse[overflow - 1];
    var i := 0;
    while i < idxs.Length
      invariant 0 <= i <= idxs.Length
      invariant idxs[..i] == ShiftedRight(old(idxs[..]), fine[..], coarse[..], tol)[..i]
      invariant forall k :: i <= k < idxs.Length ==> idxs[k] == old(idxs[k])
    {
      if idxs[i] == overflow && fine[i] - tol <= last {
        idxs[i] := overflow - 1;
      }
      i := i + 1;
    }
  }

  /** `_shift_last_edge_inside_left`, in place. */
  method ShiftInsideLeft(fine: array<real>, idxs: array<int>, coarse: array<real>, tol: real)
    requires fine.Length >= idxs.Length && coarse.Length > 0
    modifies idxs
    ensures idxs[..] == ShiftedLeft(old(idxs[..]), fine[..], coarse[..], tol)
  {
    var first := coarse[0];
    var i := 0;
    while i < idxs.Length
      invariant 0 <= i <= idxs.Length
      invariant idxs[..i] == ShiftedLeft(old(idxs[..]), fine[..], coarse[..], tol)[..i]
      invariant forall k :: i <= k < idxs.Length ==> idxs[k] == old(idxs[k])
    {
      if idxs[i] == 0 && fine[i] + tol >= first {
        idxs[i] := 1;
      }
      i := i + 1;
    }
  }

  /** What `_function` writes: the insertion point of every fine point,
      then the shift for the mode. */
  function Segments(coarse: seq<real>, fine: seq<real>, side: Side, tol: real): (r: seq<int>)
    requires |coarse| > 0
    ensures |r| == |fine|
  {
    var found := seq(|fine|, i requires 0 <= i < |fine| => Past(coarse, fine[i], side) as int);
    if side == Right then ShiftedRight(found, fine, coarse, tol) else ShiftedLeft(found, fine, coarse, tol)
  }

  /** On sorted edges every index names a segment of the coarse array or
      one of the two open ends, and the point lies in it up to the
      tolerance at the outermost edge. */
  lemma SegmentsBracket(coarse: seq<real>, fine: seq<real>, side: Side, tol: real, i: nat)
    requires |coarse| > 0 && Increasing(coarse) && i < |fine| && tol >= 0.0
    ensures var k := Segments(coarse, fine, side, tol)[i];
            var n := |coarse|;
            0 <= k <= n &&
            (side == Right ==>
               (k > 0 ==> coarse[k - 1] <= fine[i]) &&
               (k < n - 1 ==> fine[i] < coarse[k]) &&
               (k == n - 1 ==> fine[i] - tol <= coarse[n - 1]) &&
               (k == n ==> coarse[n - 1] < fine[i] - tol)) &&
            (side == Left ==>
               (k == 0 ==> fine[i] + tol < coarse[0]) &&
               (k == 1 ==> coarse[0] <= fine[i] + tol) &&
               (k > 1 ==> coarse[k - 1] < fine[i]) &&
               (0 < k < n ==> fine[i] <= coarse[k]))
  {
    PastBrackets(coarse, fine[i], side);
    var p := Past(coarse, fine[i], side);
    if side == Left && p == 0 && 1 < |coarse| {
      assert coarse[0] < coarse[1];
    }
  }

  /** `SegmentIndex._function` with the output buffer `out`: unsorted
      edges raise CalculationError before anything is written. */
  method Compute(coarse: array<real>, fine: array<real>, out: array<int>, side: Side, tol: real) returns (res: Outcome)
    requires coarse.Length > 0 && out.Length == fine.Length
    modifies out
    ensures !Increasing(coarse[..]) ==> res == Fail(CalculationError) && out[..] == old(out[..])
    ensures Increasing(coarse[..]) ==> res == Pass && out[..] == Segments(coarse[..], fine[..], side, tol)
  {
    var sorted := IsSorted(coarse);
    if !sorted {
      return Fail(CalculationError);
    }
    var c, f := coarse[..], fine[..];
    forall i | 0 <= i < out.Length {
      out[i] := Past(c, fine[i], side);
    }
    ghost var found := out[..];
    assert found == seq(|f|, i requires 0 <= i < |f| => Past(c, f[i], side) as int);
    if side == Right {
      ShiftInsideRight(fine, out, coarse, tol);
    } else {
      ShiftInsideLeft(fine, out, coarse, tol);
    }
    assert out[..] == (if side == Right then ShiftedRight(found, f, c, tol) else ShiftedLeft(found, f, c, tol));
    assert c == coarse[..];
    assert f == fine[..];
    assert out[..] == Segments(c, f, side, tol);
    res := Pass;
  }
}
