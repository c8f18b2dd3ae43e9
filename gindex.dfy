/** One-dimensional named indices (subtrees/gindex/gindex/gindex.py): an
    index name with a short and a full form, an index instance (one value
    of an index) and how it is formatted, and an index with its list of
    distinct values. */
module GIndex {
  import opened Base

  // ---------------------------------------------------------------------
  // Names

  /** `GIndexName`. */
  datatype Name = Name(short: string, full: string)

  /** The constructor: an empty full name becomes the short one. */
  function MakeName(short: string, full: string): (r: Name)
    ensures r.short == short
    ensures full != [] ==> r.full == full
    ensures full == [] ==> r.full == short
  {
    Name(short, if full == [] then short else full)
  }

  /** `name[key]`: "s" and "short" give the short name, "f" and "full" the
      full one, any other key raises ValueError. */
  function NameGet(n: Name, key: string): (r: Result<string>)
    ensures r.Ok? <==> key == "s" || key == "short" || key == "f" || key == "full"
    ensures key == "s" || key == "short" ==> r == Ok(n.short)
    ensures key == "f" || key == "full" ==> r == Ok(n.full)
    ensures r.Err? ==> r.error == ValueError
  {
    if key == "s" || key == "short" then Ok(n.short)
    else if key == "f" || key == "full" then Ok(n.full)
    else Err(ValueError)
  }

  /** `namemode_validator`. */
  predicate ValidNamemode(m: string)
  {
    m == "s" || m == "f" || m == "short" || m == "full"
  }

  /** A name as selected by a name mode: short for "s" or "short", full
      otherwise. */
  function Pick(n: Name, mode: string): string
  {
    if mode == "s" || mode == "short" then n.short else n.full
  }

  /** Picking by a valid mode is reading the name with that key. */
  lemma PickIsGet(n: Name, mode: string)
    requires ValidNamemode(mode)
    ensures NameGet(n, mode) == Ok(Pick(n, mode))
  {
  }

  // ---------------------------------------------------------------------
  // Instances

  /** `GIndexInstance`: one value of an index with the formatting options. */
  datatype Instance = Instance(name: Name, value: string, sep: string, withname: bool, namemode: string, namesep: string)

  /** The constructor: the name mode is validated (ValueError). */
  function MakeInstance(name: Name, value: string, sep: string, withname: bool, namemode: string, namesep: string): (r: Result<Instance>)
    ensures r.Ok? <==> ValidNamemode(namemode)
    ensures r.Ok? ==> r.value == Instance(name, value, sep, withname, namemode, namesep)
    ensures r.Err? ==> r.error == ValueError
  {
    if ValidNamemode(namemode) then Ok(Instance(name, value, sep, withname, namemode, namesep))
    else Err(ValueError)
  }

  /** `formatted()`: the separator, then, with `withname`, the name picked
      by the name mode and the name separator, and last the value. */
  function Formatted(i: Instance): (r: string)
    ensures !i.withname ==> r == i.sep + i.value
    ensures i.withname ==> r == i.sep + Pick(i.name, i.namemode) + i.namesep + i.value
  {
    if i.withname then i.sep + Pick(i.name, i.namemode) + i.namesep + i.value
    else i.sep + "" + "" + i.value
  }

  /** `formattedwith(...)`: options given per call; an absent separator is
      the instance's own, an absent name separator is the separator; with
      `withname` the mode must be valid (ValueError); without it the name
      separator is dropped. */
  function FormattedWith(i: Instance, withname: bool, namemode: string, sep: Option<string>, namesep: Option<string>): (r: Result<string>)
    ensures r.Err? <==> withname && !ValidNamemode(namemode)
    ensures r.Err? ==> r.error == ValueError
  {
    var s := if sep.None? then i.sep else sep.value;
    if !withname then Ok(s + "" + "" + i.value)
    else if !ValidNamemode(namemode) then Err(ValueError)
    else
      var ns := if namesep.None? then s else namesep.value;
      Ok(s + Pick(i.name, namemode) + ns + i.value)
  }

  /** Formatting with the instance's own options is `formatted()`. */
  lemma FormattedWithOwnOptions(i: Instance)
    requires ValidNamemode(i.namemode)
    ensures FormattedWith(i, i.withname, i.namemode, Some(i.sep), Some(i.namesep)) == Ok(Formatted(i))
  {
  }

  /** Without `withname` the name mode and the name separator play no part. */
  lemma FormattedWithoutName(i: Instance, namemode: string, sep: Option<string>, namesep: Option<string>)
    ensures FormattedWith(i, false, namemode, sep, namesep) == Ok((if sep.None? then i.sep else sep.value) + i.value)
  {
    assert (if sep.None? then i.sep else sep.value) + "" + "" + i.value ==
           (if sep.None? then i.sep else sep.value) + i.value;
  }

  /** Two instances that differ only in their value format differently:
      the value is what follows a fixed prefix. */
  lemma FormattedInjective(i: Instance, j: Instance)
    requires i.name == j.name && i.sep == j.sep && i.withname == j.withname
    requires i.namemode == j.namemode && i.namesep == j.namesep
    requires Formatted(i) == Formatted(j)
    ensures i.value == j.value
  {
    var prefix := if i.withname then i.sep + Pick(i.name, i.namemode) + i.namesep else i.sep;
    assert Formatted(i) == prefix + i.value && Formatted(j) == prefix + j.value;
    assert i.value == Formatted(i)[|prefix|..];
  }

  // ---------------------------------------------------------------------
  // Indices

  /** The values given to the constructor: a tuple, a list, a set (by its
      iteration order), or a sequence of another type. */
  datatype Values = TupleOf(vs: seq<string>) | ListOf(vs: seq<string>) | SetOf(vs: seq<string>) | OtherOf(vs: seq<string>)

  /** The values are pairwise different. */
  predicate Distinct(vs: seq<string>)
  {
    forall i, j :: 0 <= i < j < |vs| ==> vs[i] != vs[j]
  }

  /** `GIndex`: a name, distinct values in order, and formatting options. */
  datatype Index = Index(name: Name, values: seq<string>, sep: string, withname: bool, namemode: string, namesep: string)

  /** The constructor: the name mode is validated first (ValueError); a
      tuple of distinct values is kept, a set becomes a tuple, repeated
      values raise ValueError, a list becomes a tuple, and any other
      container raises TypeError. */
  function MakeIndex(name: Name, vals: Values, sep: string, withname: bool, namemode: string, namesep: string): (r: Result<Index>)
    requires vals.SetOf? ==> Distinct(vals.vs)
    ensures r.Ok? ==> r.value == Index(name, vals.vs, sep, withname, namemode, namesep) && Distinct(r.value.values)
    ensures r.Ok? <==> ValidNamemode(namemode) && Distinct(vals.vs) && !vals.OtherOf?
    ensures r.Err? && (!ValidNamemode(namemode) || !Distinct(vals.vs)) ==> r.error == ValueError
    ensures r.Err? && ValidNamemode(namemode) && Distinct(vals.vs) ==> r.error == TypeError
  {
    if !ValidNamemode(namemode) then Err(ValueError)
    else if vals.TupleOf? && Distinct(vals.vs) then Ok(Index(name, vals.vs, sep, withname, namemode, namesep))
    else if vals.SetOf? then Ok(Index(name, vals.vs, sep, withname, namemode, namesep))
    else if !Distinct(vals.vs) then Err(ValueError)
    else if vals.ListOf? then Ok(Index(name, vals.vs, sep, withname, namemode, namesep))
    else Err(TypeError)
  }

  /** `size()`. */
  function Size(ix: Index): nat
  {
    |ix.values|
  }

  /** `__iter__` / `instances()`: one instance per value, in order, with
      the index's name and options. */
  function Instances(ix: Index): (r: seq<Instance>)
    ensures |r| == Size(ix)
    ensures forall k :: 0 <= k < |r| ==>
              r[k] == Instance(ix.name, ix.values[k], ix.sep, ix.withname, ix.namemode, ix.namesep)
  {
    seq(|ix.values|, k requires 0 <= k < |ix.values| =>
      Instance(ix.name, ix.values[k], ix.sep, ix.withname, ix.namemode, ix.namesep))
  }

  /** The instances of an index with distinct values format to distinct
      strings. */
  lemma InstancesFormatDistinctly(ix: Index)
    requires Distinct(ix.values)
    ensures forall a, b :: 0 <= a < b < |Instances(ix)| ==> Formatted(Instances(ix)[a]) != Formatted(Instances(ix)[b])
  {
    forall a, b | 0 <= a < b < |Instances(ix)|
      ensures Formatted(Instances(ix)[a]) != Formatted(Instances(ix)[b])
    {
      if Formatted(Instances(ix)[a]) == Formatted(Instances(ix)[b]) {
        FormattedInjective(Instances(ix)[a], Instances(ix)[b]);
      }
    }
  }
}
