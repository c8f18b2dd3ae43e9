/** A node's flags (dagflow/core/flags_descriptor.py, `FlagsDescriptor`)
    and the updates that touch one node only. */
module NodeFlags {

  datatype Flags = Flags(
    tainted: bool,
    frozen: bool,
    frozenTainted: bool,
    invalid: bool,
    closed: bool,
    isAllocated: bool,
    typesTainted: bool,
    needsReallocation: bool,
    needsPostAllocate: bool)

  /** The flags of a new node: the descriptor's initial values, then the
      node's own `frozen` option. */
  function InitialFlags(frozen: bool): (f: Flags)
    ensures f.tainted && f.typesTainted
    ensures f.frozen == frozen
    ensures !f.frozenTainted && !f.invalid && !f.closed && !f.isAllocated
    ensures !f.needsReallocation && !f.needsPostAllocate
  {
    Flags(true, frozen, false, false, false, false, true, false, false)
  }

  /** The state `invalidate(v)` leaves. */
  predicate Invalidated(f: Flags, v: bool)
  {
    f.invalid == v && f.tainted && !f.frozen && !f.frozenTainted
  }

  /** `FlagsDescriptor.invalidate(v)`. */
  function InvalidateFlags(f: Flags, v: bool): (g: Flags)
    ensures Invalidated(g, v)
    ensures g.closed == f.closed && g.isAllocated == f.isAllocated
    ensures g.typesTainted == f.typesTainted && g.needsReallocation == f.needsReallocation
    ensures Invalidated(f, v) ==> g == f
  {
    f.(invalid := v, frozenTainted := false, frozen := false, tainted := true)
  }

  /** `FlagsDescriptor.freeze`. */
  function FreezeFlags(f: Flags): (g: Flags)
    ensures g.frozen && !g.frozenTainted
    ensures g.(frozen := f.frozen, frozenTainted := f.frozenTainted) == f
  {
    f.(frozen := true, frozenTainted := false)
  }

  /** The part of `taint_type` that touches the node itself. */
  function TypeTaintFlags(f: Flags): (g: Flags)
    ensures g.typesTainted && g.tainted && !g.frozen
    ensures g.(typesTainted := f.typesTainted, tainted := f.tainted, frozen := f.frozen) == f
  {
    f.(typesTainted := true, tainted := true, frozen := false)
  }

  /** The part of `update_types` that touches the node itself. */
  function TypesUpdatedFlags(f: Flags): (g: Flags)
    ensures !g.typesTainted && g.needsReallocation
    ensures g.(typesTainted := f.typesTainted, needsReallocation := f.needsReallocation) == f
  {
    f.(typesTainted := false, needsReallocation := true)
  }

  /** The part of `allocate` that touches the node itself. */
  function AllocatedFlags(f: Flags): (g: Flags)
    ensures g.isAllocated && !g.needsReallocation
    ensures g.(isAllocated := f.isAllocated, needsReallocation := f.needsReallocation) == f
  {
    f.(isAllocated := true, needsReallocation := false)
  }

  /** Two flag records that differ at most in `tainted` and
      `frozen_tainted`. */
  predicate SameButTaint(a: Flags, b: Flags)
  {
    a.frozen == b.frozen && a.invalid == b.invalid && a.closed == b.closed &&
    a.isAllocated == b.isAllocated && a.typesTainted == b.typesTainted &&
    a.needsReallocation == b.needsReallocation && a.needsPostAllocate == b.needsPostAllocate
  }
}
