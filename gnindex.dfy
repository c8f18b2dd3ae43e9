/** Multi-dimensional named indices (subtrees/gindex/gindex/gnindex.py): a
    dictionary keyed by index names that also answers to a short or full
    name, an n-dimensional index (a tuple of one-dimensional indices with an
    order) with its sorting, filtering, union, set operations, removal and
    splitting, the cartesian product of its instances, and the formatting of
    one n-dimensional instance. */
module GNIndex {
  import opened Base
  import opened GIndex

  // ---------------------------------------------------------------------
  // Name-keyed dictionaries (`GIndexNameDict`)

  /** A key: a string (matching an entry by its short or full name) or an
      index name (matching the entry with exactly that name). */
  datatype Key = Text(s: string) | Named(n: Name)

  predicate Matches(n: Name, k: Key)
  {
    match k
    case Text(s) => s == n.short || s == n.full
    case Named(m) => m == n
  }

  /** The entries of a dictionary in insertion order. */
  type Items<V> = seq<(Name, V)>

  /** Dictionary keys are distinct. */
  predicate Keyed<V>(d: Items<V>)
  {
    forall i, j :: 0 <= i < j < |d| ==> d[i].0 != d[j].0
  }

  /** No string names both of two indices. */
  predicate Apart(a: Name, b: Name)
  {
    a.short != b.short && a.short != b.full && a.full != b.short && a.full != b.full
  }

  /** Every string names at most one entry. */
  predicate Unambiguous<V>(d: Items<V>)
  {
    forall i, j :: 0 <= i < |d| && 0 <= j < |d| && i != j ==> Apart(d[i].0, d[j].0)
  }

  lemma UnambiguousIsKeyed<V>(d: Items<V>)
    requires Unambiguous(d)
    ensures Keyed(d)
  {
    forall i, j | 0 <= i < j < |d| ensures d[i].0 != d[j].0 {
      assert Apart(d[i].0, d[j].0);
    }
  }

  /** The first entry a key matches: the dictionary is searched in order. */
  function Find<V>(d: Items<V>, k: Key): (r: Option<nat>)
    ensures r.None? <==> forall i :: 0 <= i < |d| ==> !Matches(d[i].0, k)
    ensures r.Some? ==> r.value < |d| && Matches(d[r.value].0, k)
    ensures r.Some? ==> forall j :: 0 <= j < r.value ==> !Matches(d[j].0, k)
  {
    if d == [] then None
    else if Matches(d[0].0, k) then Some(0)
    else match Find(d[1..], k)
      case None => None
      case Some(i) => Some(i + 1)
  }

  /** The entry a key matches first is the one Find answers. */
  lemma FindFirst<V>(d: Items<V>, i: nat, k: Key)
    requires i < |d| && Matches(d[i].0, k)
    requires forall j :: 0 <= j < i ==> !Matches(d[j].0, k)
    ensures Find(d, k) == Some(i)
  {
  }

  /** `key in d`. */
  predicate Contains<V>(d: Items<V>, k: Key)
  {
    Find(d, k).Some?
  }

  /** In an unambiguous dictionary a key matches one entry at most. */
  lemma OnlyMatch<V>(d: Items<V>, i: nat, j: nat, k: Key)
    requires Unambiguous(d) && i < |d| && j < |d|
    requires Matches(d[i].0, k) && Matches(d[j].0, k)
    ensures i == j
  {
  }

  /** `d[key]`: the value of the first matching entry, KeyError if none. */
  function GetItem<V>(d: Items<V>, k: Key): (r: Result<V>)
    ensures r.Ok? <==> Contains(d, k)
    ensures r.Ok? ==> exists i :: 0 <= i < |d| && Matches(d[i].0, k) && r.value == d[i].1
    ensures r.Err? ==> r.error == KeyError
  {
    match Find(d, k)
    case None => Err(KeyError)
    case Some(i) => Ok(d[i].1)
  }

  /** The key an unknown key is stored under: a string becomes the name
      with that short and full form. */
  function NewName(k: Key): (r: Name)
    ensures Matches(r, k)
  {
    match k
    case Text(s) => MakeName(s, s)
    case Named(n) => n
  }

  /** `d[key] = val`: the first matching entry takes the value; without
      one, a new entry is appended. */
  function SetItem<V>(d: Items<V>, k: Key, v: V): (r: Items<V>)
    ensures Contains(d, k) ==> |r| == |d| && r[Find(d, k).value] == (d[Find(d, k).value].0, v)
    ensures Contains(d, k) ==> forall j :: 0 <= j < |d| && j != Find(d, k).value ==> r[j] == d[j]
    ensures !Contains(d, k) ==> r == d + [(NewName(k), v)]
    ensures GetItem(r, k) == Ok(v)
    ensures Keyed(d) ==> Keyed(r)
  {
    match Find(d, k)
    case Some(i) =>
      var r := d[i := (d[i].0, v)];
      FindFirst(r, i, k);
      r
    case None =>
      var r := d + [(NewName(k), v)];
      assert Find(r, k) == Some(|d|) by {
        var f := Find(r, k);
        assert f.Some? by { assert Matches(r[|d|].0, k); }
        assert !(f.value < |d|);
      }
      assert Keyed(d) ==> Keyed(r) by {
        if Keyed(d) {
          forall a, b | 0 <= a < b < |r| ensures r[a].0 != r[b].0 {
            if b == |d| {
              assert !Matches(d[a].0, k);
            }
          }
        }
      }
      r
  }

  /** `del d[key]`: the first matching entry goes; KeyError without one. */
  function DelItem<V>(d: Items<V>, k: Key): (r: Result<Items<V>>)
    ensures r.Ok? <==> Contains(d, k)
    ensures r.Ok? ==> r.value == d[..Find(d, k).value] + d[Find(d, k).value + 1..]
    ensures r.Err? ==> r.error == KeyError
  {
    match Find(d, k)
    case None => Err(KeyError)
    case Some(i) => Ok(d[..i] + d[i + 1..])
  }

  /** Storing under an absent key and deleting it again restores the
      dictionary. */
  lemma DeleteUndoesSet<V>(d: Items<V>, k: Key, v: V)
    requires !Contains(d, k)
    ensures DelItem(SetItem(d, k, v), k) == Ok(d)
  {
    var r := SetItem(d, k, v);
    assert Find(r, k) == Some(|d|) by {
      var f := Find(r, k);
      assert !(f.value < |d|);
    }
    assert r[..|d|] + r[|d| + 1..] == d;
  }

  /** Reading after storing gives the stored value; other entries keep
      theirs. */
  lemma SetThenGet<V>(d: Items<V>, k: Key, v: V, k2: Key)
    requires Unambiguous(d) && Contains(d, k) && Contains(d, k2)
    requires Find(d, k) != Find(d, k2)
    ensures GetItem(SetItem(d, k, v), k) == Ok(v)
    ensures GetItem(SetItem(d, k, v), k2) == GetItem(d, k2)
  {
    var r := SetItem(d, k, v);
    var i2 := Find(d, k2).value;
    assert Find(r, k2) == Some(i2) by {
      var f := Find(r, k2);
      assert f.Some? by { assert Matches(r[i2].0, k2); }
      assert !(f.value < i2) && !(i2 < f.value);
    }
  }

  /** `GIndexNameDict`: a dictionary whose entries are updated in place. */
  class NameDict<V> {
    var items: Items<V>

    constructor (init: Items<V>)
      ensures items == init
    {
      items := init;
    }

    /** `key in self`. */
    predicate Has(k: Key)
      reads this
    {
      Contains(items, k)
    }

    /** `self[key]`: the entries are searched in order. */
    method Get(k: Key) returns (r: Result<V>)
      ensures r == GetItem(items, k)
    {
      var i := 0;
      while i < |items|
        invariant 0 <= i <= |items|
        invariant forall j :: 0 <= j < i ==> !Matches(items[j].0, k)
      {
        if Matches(items[i].0, k) {
          return Ok(items[i].1);
        }
        i := i + 1;
      }
      return Err(KeyError);
    }

    /** `self[key] = val`. */
    method Set(k: Key, v: V)
      modifies this
      ensures items == SetItem(old(items), k, v)
    {
      var i := 0;
      while i < |items|
        invariant 0 <= i <= |items|
        invariant items == old(items)
        invariant forall j :: 0 <= j < i ==> !Matches(items[j].0, k)
      {
        if Matches(items[i].0, k) {
          items := items[i := (items[i].0, v)];
          return;
        }
        i := i + 1;
      }
      items := items + [(NewName(k), v)];
    }

    /** `del self[key]`. */
    method Delete(k: Key) returns (o: Outcome)
      modifies this
      ensures DelItem(old(items), k).Ok? ==> o == Pass && items == DelItem(old(items), k).value
      ensures DelItem(old(items), k).Err? ==> o == Fail(KeyError) && items == old(items)
    {
      var i := 0;
      while i < |items|
        invariant 0 <= i <= |items|
        invariant items == old(items)
        invariant forall j :: 0 <= j < i ==> !Matches(items[j].0, k)
      {
        if Matches(items[i].0, k) {
          items := items[..i] + items[i + 1..];
          return Pass;
        }
        i := i + 1;
      }
      return Fail(KeyError);
    }
  }

  /** The dictionary a sequence of entries builds: a later entry with the
      same name replaces the earlier value in the earlier position. */
  function Collect<V>(pairs: Items<V>): (r: Items<V>)
    ensures Keyed(r)
    decreases |pairs|
  {
    if pairs == [] then []
    else
      var last := pairs[|pairs| - 1];
      SetItem(Collect(pairs[..|pairs| - 1]), Named(last.0), last.1)
  }

  /** Entries with distinct names build exactly themselves. */
  lemma {:induction false} CollectKeyed<V>(pairs: Items<V>)
    requires Keyed(pairs)
    ensures Collect(pairs) == pairs
    decreases |pairs|
  {
    if pairs != [] {
      var init := pairs[..|pairs| - 1];
      var last := pairs[|pairs| - 1];
      CollectKeyed(init);
      assert !Contains(init, Named(last.0)) by {
        forall i | 0 <= i < |init| ensures !Matches(init[i].0, Named(last.0)) {
          assert init[i] == pairs[i];
        }
      }
      assert init + [last] == pairs;
    }
  }

  /** The values of a dictionary in order. */
  function Vals<V>(d: Items<V>): (r: seq<V>)
    ensures |r| == |d| && forall i :: 0 <= i < |d| ==> r[i] == d[i].1
  {
    seq(|d|, i requires 0 <= i < |d| => d[i].1)
  }

  // ---------------------------------------------------------------------
  // Sorting by an order

  /** An entry of an order: a name, or an integer (`True` is 1) marking
      where a formatted string goes. */
  datatype OrderItem = OName(s: string) | OInt(i: int)

  /** `name in dict` for an order entry: integers are never keys. */
  predicate InDict<V>(d: Items<V>, o: OrderItem)
  {
    o.OName? && Contains(d, Text(o.s))
  }

  /** `[tmpdict.pop(name) for name in order if name in tmpdict]`: the
      values popped in order and what is left of the dictionary. */
  function Pass<V>(d: Items<V>, order: seq<OrderItem>): (seq<V>, Items<V>)
    decreases |order|
  {
    if order == [] then ([], d)
    else if InDict(d, order[0]) then
      var i := Find(d, Text(order[0].s)).value;
      var p := Pass(d[..i] + d[i + 1..], order[1..]);
      ([d[i].1] + p.0, p.1)
    else Pass(d, order[1..])
  }

  /** What remains after removing one entry. */
  lemma RemoveEntry<V>(d: Items<V>, i: nat)
    requires i < |d|
    ensures multiset(Vals(d[..i] + d[i + 1..])) + multiset{d[i].1} == multiset(Vals(d))
    ensures forall e :: e in d[..i] + d[i + 1..] ==> e in d
  {
    var a, b := d[..i], d[i + 1..];
    calc {
      multiset(Vals(d));
    == { assert d == (a + [d[i]]) + b; ValsAppend(a + [d[i]], b); }
      multiset(Vals(a + [d[i]]) + Vals(b));
    == { ValsAppend(a, [d[i]]); assert Vals([d[i]]) == [d[i].1]; }
      multiset(Vals(a) + [d[i].1] + Vals(b));
      multiset(Vals(a)) + multiset{d[i].1} + multiset(Vals(b));
      multiset(Vals(a) + Vals(b)) + multiset{d[i].1};
    == { ValsAppend(a, b); }
      multiset(Vals(a + b)) + multiset{d[i].1};
    }
    forall e | e in a + b ensures e in d {
      var x :| 0 <= x < |a + b| && (a + b)[x] == e;
      if x < i { assert e == d[x]; } else { assert e == d[x + 1]; }
    }
  }

  lemma ValsAppend<V>(a: Items<V>, b: Items<V>)
    ensures Vals(a + b) == Vals(a) + Vals(b)
  {
  }

  lemma {:induction false} PassPermutes<V>(d: Items<V>, order: seq<OrderItem>)
    ensures multiset(Pass(d, order).0) + multiset(Vals(Pass(d, order).1)) == multiset(Vals(d))
    ensures forall e :: e in Pass(d, order).1 ==> e in d
    decreases |order|
  {
    if order != [] && InDict(d, order[0]) {
      var i := Find(d, Text(order[0].s)).value;
      var rest := d[..i] + d[i + 1..];
      PassPermutes(rest, order[1..]);
      RemoveEntry(d, i);
      var p := Pass(rest, order[1..]);
      assert Pass(d, order) == ([d[i].1] + p.0, p.1);
      assert multiset([d[i].1] + p.0) == multiset{d[i].1} + multiset(p.0);
    } else if order != [] {
      PassPermutes(d, order[1..]);
    }
  }

  /** `sort(order)`: the entries named by the order, in that order, then
      the remaining ones in dictionary order. */
  function Sorted<V>(d: Items<V>, order: seq<OrderItem>): (r: seq<V>)
    ensures multiset(r) == multiset(Vals(d))
  {
    var p := Pass(d, order);
    PassPermutes(d, order);
    p.0 + Vals(p.1)
  }

  /** The loop of `sort`: it pops the named entries from a copy of the
      dictionary and appends what remains. */
  method SortValues<V>(d: Items<V>, order: seq<OrderItem>) returns (r: seq<V>)
    ensures r == Sorted(d, order)
  {
    var tmp := d;
    var picked: seq<V> := [];
    var n := 0;
    while n < |order|
      invariant 0 <= n <= |order|
      invariant Pass(d, order).0 == picked + Pass(tmp, order[n..]).0
      invariant Pass(d, order).1 == Pass(tmp, order[n..]).1
    {
      assert order[n..][1..] == order[n + 1..];
      var o := order[n];
      if o.OName? {
        var f := Find(tmp, Text(o.s));
        if f.Some? {
          picked := picked + [tmp[f.value].1];
          tmp := tmp[..f.value] + tmp[f.value + 1..];
        }
      }
      n := n + 1;
    }
    r := picked + Vals(tmp);
  }

  /** Removing an entry keeps a dictionary unambiguous. */
  lemma RemoveUnambiguous<V>(d: Items<V>, i: nat)
    requires Unambiguous(d) && i < |d|
    ensures Unambiguous(d[..i] + d[i + 1..])
  {
    var r := d[..i] + d[i + 1..];
    forall x, y | 0 <= x < |r| && 0 <= y < |r| && x != y ensures Apart(r[x].0, r[y].0) {
      var x' := if x < i then x else x + 1;
      var y' := if y < i then y else y + 1;
      assert r[x] == d[x'] && r[y] == d[y'];
    }
  }

  /** In an unambiguous dictionary, the entries `sort` leaves for the end
      are those no name of the order designates. */
  lemma {:induction false} SortNamedFirst<V>(d: Items<V>, order: seq<OrderItem>)
    requires Unambiguous(d)
    ensures forall e, o :: e in Pass(d, order).1 && o in order && o.OName? ==> !Matches(e.0, Text(o.s))
    decreases |order|
  {
    if order != [] {
      if InDict(d, order[0]) {
        var i := Find(d, Text(order[0].s)).value;
        RemoveUnambiguous(d, i);
        SortNamedFirst(d[..i] + d[i + 1..], order[1..]);
        NamedFirstFound(d, order);
      } else {
        SortNamedFirst(d, order[1..]);
        NamedFirstSkipped(d, order);
      }
    }
  }

  /** The step of `SortNamedFirst` at a name the dictionary holds. */
  lemma NamedFirstFound<V>(d: Items<V>, order: seq<OrderItem>)
    requires Unambiguous(d) && order != [] && InDict(d, order[0])
    requires var i := Find(d, Text(order[0].s)).value;
             forall e, o :: e in Pass(d[..i] + d[i + 1..], order[1..]).1 && o in order[1..] && o.OName? ==> !Matches(e.0, Text(o.s))
    ensures forall e, o :: e in Pass(d, order).1 && o in order && o.OName? ==> !Matches(e.0, Text(o.s))
  {
    var k := Text(order[0].s);
    var i := Find(d, k).value;
    var rest := d[..i] + d[i + 1..];
    PassPermutes(rest, order[1..]);
    assert Pass(d, order).1 == Pass(rest, order[1..]).1;
    forall e | e in Pass(rest, order[1..]).1 ensures !Matches(e.0, k) {
      DelKept(d, i, k, e);
    }
  }

  /** The step of `SortNamedFirst` at an item the dictionary does not
      hold. */
  lemma NamedFirstSkipped<V>(d: Items<V>, order: seq<OrderItem>)
    requires order != [] && !InDict(d, order[0])
    requires forall e, o :: e in Pass(d, order[1..]).1 && o in order[1..] && o.OName? ==> !Matches(e.0, Text(o.s))
    ensures forall e, o :: e in Pass(d, order).1 && o in order && o.OName? ==> !Matches(e.0, Text(o.s))
  {
    PassPermutes(d, order[1..]);
    assert Pass(d, order).1 == Pass(d, order[1..]).1;
    if order[0].OName? {
      forall e | e in d ensures !Matches(e.0, Text(order[0].s)) {
        var x :| 0 <= x < |d| && d[x] == e;
      }
    }
  }

  /** An order of the short names of some leading entries, in their
      order. */
  function Shorts<V>(d: Items<V>): (r: seq<OrderItem>)
    ensures |r| == |d| && forall i :: 0 <= i < |d| ==> r[i] == OName(d[i].0.short)
  {
    seq(|d|, i requires 0 <= i < |d| => OName(d[i].0.short))
  }

  /** `_auto_order`: `True` followed by the short names in order. */
  function AutoOrder<V>(d: Items<V>): (r: seq<OrderItem>)
    ensures r == [OInt(1)] + Shorts(d)
  {
    [OInt(1)] + Shorts(d)
  }

  /** Sorting by the short names of the leading entries keeps the
      dictionary order. */
  lemma {:induction false} PassShortsPrefix<V>(a: Items<V>, b: Items<V>)
    ensures Pass(a + b, Shorts(a)) == (Vals(a), b)
    decreases |a|
  {
    if a == [] {
      assert a + b == b;
    } else {
      var d := a + b;
      assert Matches(d[0].0, Text(a[0].0.short));
      assert Find(d, Text(a[0].0.short)) == Some(0);
      assert d[..0] + d[1..] == a[1..] + b;
      assert Shorts(a)[1..] == Shorts(a[1..]);
      PassShortsPrefix(a[1..], b);
      assert Vals(a) == [a[0].1] + Vals(a[1..]);
    }
  }

  /** Sorting by the automatic order of the leading entries keeps the
      dictionary order. */
  lemma SortedAuto<V>(a: Items<V>, b: Items<V>)
    ensures Sorted(a + b, AutoOrder(a)) == Vals(a + b)
  {
    PassShortsPrefix(a, b);
    var o := AutoOrder(a);
    assert !InDict(a + b, o[0]);
    assert o[1..] == Shorts(a);
    assert Pass(a + b, o) == Pass(a + b, Shorts(a));
    ValsAppend(a, b);
  }

  // ---------------------------------------------------------------------
  // n-dimensional indices (`GNIndex`)

  /** `GNIndex`: the indices in sorted order, the order, the name
      dictionary built at construction, and formatting options. */
  datatype NIndex = NIndex(values: seq<Index>, order: seq<OrderItem>, dict: Items<Index>,
                           sep: string, withname: bool, namemode: string, namesep: string)

  /** The entries `{val.name: val for val in values}` is built from. */
  function Pairs(L: seq<Index>): (r: Items<Index>)
    ensures |r| == |L| && forall i :: 0 <= i < |L| ==> r[i] == (L[i].name, L[i])
  {
    seq(|L|, i requires 0 <= i < |L| => (L[i].name, L[i]))
  }

  lemma PairsAppend(L: seq<Index>, R: seq<Index>)
    ensures Pairs(L + R) == Pairs(L) + Pairs(R)
  {
  }

  lemma ValsPairs(L: seq<Index>)
    ensures Vals(Pairs(L)) == L
  {
  }

  /** The constructor once the name mode is known to be valid (as it is in
      every copy): the dictionary is built, an empty order becomes the
      automatic one, and the values are sorted. */
  function Build(L: seq<Index>, order: seq<OrderItem>, sep: string, withname: bool, namemode: string, namesep: string): (r: NIndex)
    ensures r.dict == Collect(Pairs(L))
    ensures order == [] ==> r.order == AutoOrder(Pairs(L))
    ensures order != [] ==> r.order == order
    ensures multiset(r.values) == multiset(Vals(r.dict))
  {
    var d := Collect(Pairs(L));
    var o := if order == [] then AutoOrder(Pairs(L)) else order;
    NIndex(Sorted(d, o), o, d, sep, withname, namemode, namesep)
  }

  /** `GNIndex(values, order, ...)`: the name mode is validated
      (ValueError). */
  function New(L: seq<Index>, order: seq<OrderItem>, sep: string, withname: bool, namemode: string, namesep: string): (r: Result<NIndex>)
    ensures r.Ok? <==> ValidNamemode(namemode)
    ensures r.Err? ==> r.error == ValueError
    ensures r.Ok? ==> r.value.dict == Collect(Pairs(L)) && r.value.order != []
  {
    if !ValidNamemode(namemode) then Err(ValueError)
    else Ok(Build(L, order, sep, withname, namemode, namesep))
  }

  /** Indices with distinct names, built with the automatic order, keep
      their given order. */
  lemma BuildKeepsOrder(L: seq<Index>, sep: string, withname: bool, namemode: string, namesep: string)
    requires Keyed(Pairs(L))
    ensures Build(L, [], sep, withname, namemode, namesep).values == L
    ensures Build(L, [], sep, withname, namemode, namesep).dict == Pairs(L)
  {
    CollectKeyed(Pairs(L));
    SortedAuto(Pairs(L), []);
    assert Pairs(L) + [] == Pairs(L);
  }

  /** Entries with the same name hold the same value. */
  ghost predicate Consistent<V>(p: Items<V>)
  {
    forall i, j :: 0 <= i < |p| && 0 <= j < |p| && p[i].0 == p[j].0 ==> p[i].1 == p[j].1
  }

  /** The dictionary built from consistent entries holds exactly them. */
  lemma {:induction false} CollectMembers<V>(p: Items<V>)
    requires Consistent(p)
    ensures forall e :: e in Collect(p) <==> e in p
    decreases |p|
  {
    if p != [] {
      var init := p[..|p| - 1];
      var last := p[|p| - 1];
      assert Consistent(init) by {
        forall i, j | 0 <= i < |init| && 0 <= j < |init| && init[i].0 == init[j].0 ensures init[i].1 == init[j].1 {
          assert init[i] == p[i] && init[j] == p[j];
        }
      }
      CollectMembers(init);
      var c := Collect(init);
      assert p == init + [last];
      match Find(c, Named(last.0))
      case None =>
      case Some(k) =>
        assert c[k].0 == last.0;
        assert c[k] in init;
        var j :| 0 <= j < |init| && init[j] == c[k];
        assert p[j] == c[k];
        assert c[k].1 == last.1;
        assert SetItem(c, Named(last.0), last.1) == c;
        assert last in init;
    }
  }

  /** Indices with distinct names are consistent entries. */
  lemma KeyedConsistent<V>(p: Items<V>)
    requires Keyed(p)
    ensures Consistent(p)
  {
    forall i, j | 0 <= i < |p| && 0 <= j < |p| && p[i].0 == p[j].0 ensures p[i].1 == p[j].1 {
      assert !(i < j) && !(j < i);
    }
  }

  /** When equal names mean equal indices, every given index is there after
      construction, and nothing else is. */
  lemma BuildMembers(L: seq<Index>, order: seq<OrderItem>, sep: string, withname: bool, namemode: string, namesep: string)
    requires Consistent(Pairs(L))
    ensures forall x :: x in Build(L, order, sep, withname, namemode, namesep).values <==> x in L
  {
    var c := Collect(Pairs(L));
    CollectMembers(Pairs(L));
    var r := Build(L, order, sep, withname, namemode, namesep);
    forall x ensures x in r.values <==> x in L {
      assert x in r.values <==> x in multiset(Vals(c));
      if x in Vals(c) {
        var i :| 0 <= i < |c| && Vals(c)[i] == x;
        assert c[i] in Pairs(L);
        var j :| 0 <= j < |L| && Pairs(L)[j] == c[i];
        assert L[j] == x;
      }
      if x in L {
        var j :| 0 <= j < |L| && L[j] == x;
        assert Pairs(L)[j] in c;
        var i :| 0 <= i < |c| && c[i] == Pairs(L)[j];
        assert Vals(c)[i] == x;
      }
    }
  }

  /** A copy with new values and the same order and options. */
  function CopyWith(n: NIndex, L: seq<Index>): (r: NIndex)
    ensures r.order == (if n.order == [] then AutoOrder(Pairs(L)) else n.order)
    ensures r.sep == n.sep && r.withname == n.withname && r.namemode == n.namemode && r.namesep == n.namesep
  {
    Build(L, n.order, n.sep, n.withname, n.namemode, n.namesep)
  }

  /** The names given to `sub` designate an index by short or full name. */
  predicate Listed(x: Index, names: seq<string>)
  {
    x.name.short in names || x.name.full in names
  }

  /** The indices `sub` keeps, in order. */
  function SubValues(L: seq<Index>, names: seq<string>): (r: seq<Index>)
    ensures forall x :: x in r <==> x in L && Listed(x, names)
    decreases |L|
  {
    if L == [] then []
    else (if Listed(L[0], names) then [L[0]] else []) + SubValues(L[1..], names)
  }

  /** `sub(names)`. */
  function Sub(n: NIndex, names: seq<string>): (r: NIndex)
    ensures r.order == (if n.order == [] then AutoOrder(Pairs(SubValues(n.values, names))) else n.order)
    ensures multiset(r.values) == multiset(Vals(Collect(Pairs(SubValues(n.values, names)))))
  {
    CopyWith(n, SubValues(n.values, names))
  }

  /** The tail of an unambiguous sequence of indices is unambiguous and
      apart from its head. */
  lemma TailUnambiguous(L: seq<Index>)
    requires L != [] && Unambiguous(Pairs(L))
    ensures Unambiguous(Pairs(L[1..]))
    ensures forall y :: y in L[1..] ==> Apart(L[0].name, y.name)
  {
    var L' := L[1..];
    forall a, b | 0 <= a < |L'| && 0 <= b < |L'| && a != b ensures Apart(Pairs(L')[a].0, Pairs(L')[b].0) {
      assert Pairs(L')[a] == Pairs(L)[a + 1] && Pairs(L')[b] == Pairs(L)[b + 1];
    }
    forall y | y in L' ensures Apart(L[0].name, y.name) {
      var j :| 0 <= j < |L'| && L'[j] == y;
      assert Pairs(L)[j + 1] == (y.name, y);
    }
  }

  /** An index apart from an unambiguous sequence can lead it. */
  lemma ConsUnambiguous(x: Index, s: seq<Index>)
    requires Unambiguous(Pairs(s))
    requires forall y :: y in s ==> Apart(x.name, y.name)
    ensures Unambiguous(Pairs([x] + s))
  {
    var r := [x] + s;
    forall a, b | 0 <= a < |r| && 0 <= b < |r| && a != b ensures Apart(Pairs(r)[a].0, Pairs(r)[b].0) {
      if a == 0 {
        assert r[b] == s[b - 1];
      } else if b == 0 {
        assert r[a] == s[a - 1];
      } else {
        assert Pairs(r)[a] == Pairs(s)[a - 1] && Pairs(r)[b] == Pairs(s)[b - 1];
      }
    }
  }

  lemma {:induction false} SubUnambiguous(L: seq<Index>, names: seq<string>)
    requires Unambiguous(Pairs(L))
    ensures Unambiguous(Pairs(SubValues(L, names)))
    decreases |L|
  {
    if L != [] {
      TailUnambiguous(L);
      SubUnambiguous(L[1..], names);
      if Listed(L[0], names) {
        ConsUnambiguous(L[0], SubValues(L[1..], names));
      }
    }
  }

  /** A name matching the first entry pops it. */
  lemma PassHead<V>(x: (Name, V), s: Items<V>, o: seq<OrderItem>)
    ensures Pass([x] + s, [OName(x.0.short)] + o) == ([x.1] + Pass(s, o).0, Pass(s, o).1)
  {
    var d := [x] + s;
    var order := [OName(x.0.short)] + o;
    assert Matches(d[0].0, Text(x.0.short));
    assert Find(d, Text(x.0.short)) == Some(0);
    assert d[..0] + d[1..] == s;
    assert order[1..] == o;
  }

  /** A name that is not in the dictionary is skipped. */
  lemma PassSkip<V>(d: Items<V>, o0: OrderItem, o: seq<OrderItem>)
    requires !InDict(d, o0)
    ensures Pass(d, [o0] + o) == Pass(d, o)
  {
    assert ([o0] + o)[1..] == o;
  }

  /** Sorting the kept indices by the automatic order of all of them keeps
      their order. */
  lemma {:induction false} PassFiltered(L: seq<Index>, names: seq<string>)
    requires Unambiguous(Pairs(L))
    ensures Pass(Pairs(SubValues(L, names)), Shorts(Pairs(L))) == (SubValues(L, names), [])
    decreases |L|
  {
    if L != [] {
      TailUnambiguous(L);
      PassFiltered(L[1..], names);
      if Listed(L[0], names) {
        FilteredKept(L, names);
      } else {
        FilteredDropped(L, names);
      }
    }
  }

  /** The step of `PassFiltered` for a kept head. */
  lemma FilteredKept(L: seq<Index>, names: seq<string>)
    requires L != [] && Listed(L[0], names)
    requires Pass(Pairs(SubValues(L[1..], names)), Shorts(Pairs(L[1..]))) == (SubValues(L[1..], names), [])
    ensures Pass(Pairs(SubValues(L, names)), Shorts(Pairs(L))) == (SubValues(L, names), [])
  {
    var x := L[0];
    var s := SubValues(L[1..], names);
    var o := Shorts(Pairs(L[1..]));
    ShortsCons(L);
    assert SubValues(L, names) == [x] + s;
    assert Pairs([x] + s) == [(x.name, x)] + Pairs(s);
    PassHead((x.name, x), Pairs(s), o);
  }

  /** The automatic order of a non-empty sequence of indices starts with the
      first index's short name. */
  lemma ShortsCons(L: seq<Index>)
    requires L != []
    ensures Shorts(Pairs(L)) == [OName(L[0].name.short)] + Shorts(Pairs(L[1..]))
  {
    assert L == [L[0]] + L[1..];
    PairsAppend([L[0]], L[1..]);
  }

  /** The step of `PassFiltered` for a dropped head. */
  lemma FilteredDropped(L: seq<Index>, names: seq<string>)
    requires L != [] && !Listed(L[0], names)
    requires forall y :: y in L[1..] ==> Apart(L[0].name, y.name)
    requires Pass(Pairs(SubValues(L[1..], names)), Shorts(Pairs(L[1..]))) == (SubValues(L[1..], names), [])
    ensures Pass(Pairs(SubValues(L, names)), Shorts(Pairs(L))) == (SubValues(L, names), [])
  {
    var x := L[0];
    var s := SubValues(L[1..], names);
    var o := Shorts(Pairs(L[1..]));
    ShortsCons(L);
    assert SubValues(L, names) == s;
    assert forall y :: y in s ==> Apart(x.name, y.name);
    ApartAbsent(x, s);
    PassSkip(Pairs(s), OName(x.name.short), o);
  }

  /** The short name of an index apart from all others is not a key among them. */
  lemma ApartAbsent(x: Index, s: seq<Index>)
    requires forall y :: y in s ==> Apart(x.name, y.name)
    ensures !Contains(Pairs(s), Text(x.name.short))
  {
    forall i | 0 <= i < |s| ensures !Matches(Pairs(s)[i].0, Text(x.name.short)) {
      assert s[i] in s;
    }
  }

  /** `sub` of an index built with the automatic order keeps exactly the
      indices named by a short or full name, in their order. */
  lemma SubKeepsOrder(L: seq<Index>, names: seq<string>, sep: string, withname: bool, namemode: string, namesep: string)
    requires Unambiguous(Pairs(L))
    ensures Sub(Build(L, [], sep, withname, namemode, namesep), names).values == SubValues(L, names)
  {
    UnambiguousIsKeyed(Pairs(L));
    BuildKeepsOrder(L, sep, withname, namemode, namesep);
    var n := Build(L, [], sep, withname, namemode, namesep);
    var s := SubValues(L, names);
    SubUnambiguous(L, names);
    UnambiguousIsKeyed(Pairs(s));
    CollectKeyed(Pairs(s));
    PassFiltered(L, names);
    assert n.order[1..] == Shorts(Pairs(L));
    assert Pass(Pairs(s), n.order) == Pass(Pairs(s), Shorts(Pairs(L)));
  }

  /** The values of `union`: each argument's indices not yet present are
      appended, one by one. */
  function AppendNew(vs: seq<Index>, more: seq<Index>): (r: seq<Index>)
    ensures |vs| <= |r| && r[..|vs|] == vs
    ensures forall x :: x in r <==> x in vs || x in more
    ensures NoDup(vs) ==> NoDup(r)
    decreases |more|
  {
    if more == [] then vs
    else
      var next := if more[0] in vs then vs else vs + [more[0]];
      assert NoDup(vs) ==> NoDup(next);
      var r := AppendNew(next, more[1..]);
      assert r[..|vs|] == next[..|vs|];
      assert forall x :: x in more <==> x == more[0] || x in more[1..];
      r
  }

  /** No index twice. */
  predicate NoDup(L: seq<Index>)
  {
    forall i, j :: 0 <= i < j < |L| ==> L[i] != L[j]
  }

  /** Some argument holds the index. */
  predicate InArgs(x: Index, args: seq<NIndex>)
  {
    exists a :: 0 <= a < |args| && x in args[a].values
  }

  lemma InArgsCons(x: Index, args: seq<NIndex>)
    requires args != []
    ensures InArgs(x, args) <==> x in args[0].values || InArgs(x, args[1..])
  {
    if InArgs(x, args) {
      var a :| 0 <= a < |args| && x in args[a].values;
      if a > 0 { assert x in args[1..][a - 1].values; }
    }
    if InArgs(x, args[1..]) {
      var a :| 0 <= a < |args[1..]| && x in args[1..][a].values;
      assert x in args[a + 1].values;
    }
  }

  /** The values of `union(*args)`. */
  function UnionAll(vs: seq<Index>, args: seq<NIndex>): (r: seq<Index>)
    ensures |vs| <= |r| && r[..|vs|] == vs
    ensures forall x :: x in r <==> x in vs || InArgs(x, args)
    ensures NoDup(vs) ==> NoDup(r)
    decreases |args|
  {
    if args == [] then vs
    else
      var next := AppendNew(vs, args[0].values);
      var r := UnionAll(next, args[1..]);
      assert r[..|vs|] == next[..|vs|];
      assert forall x :: InArgs(x, args) <==> x in args[0].values || InArgs(x, args[1..]) by {
        forall x ensures InArgs(x, args) <==> x in args[0].values || InArgs(x, args[1..]) {
          InArgsCons(x, args);
        }
      }
      r
  }

  /** `union(*args)`. */
  function Union(n: NIndex, args: seq<NIndex>): (r: NIndex)
    ensures r.order == (if n.order == [] then AutoOrder(Pairs(UnionAll(n.values, args))) else n.order)
    ensures multiset(r.values) == multiset(Vals(Collect(Pairs(UnionAll(n.values, args)))))
  {
    CopyWith(n, UnionAll(n.values, args))
  }

  /** The loop of `union`. */
  method UnionWith(n: NIndex, args: seq<NIndex>) returns (r: NIndex)
    ensures r == Union(n, args)
  {
    var values := n.values;
    var a := 0;
    while a < |args|
      invariant 0 <= a <= |args|
      invariant UnionAll(values, args[a..]) == UnionAll(n.values, args)
    {
      assert args[a..][1..] == args[a + 1..];
      values := AppendNew(values, args[a].values);
      a := a + 1;
    }
    assert args[a..] == [];
    r := CopyWith(n, values);
  }

  /** `union` of an index built with the automatic order, when all names
      are distinct, keeps the index's own indices first, in order, and
      appends the new ones after them in the order they came. */
  lemma UnionKeepsOrder(L: seq<Index>, args: seq<NIndex>, sep: string, withname: bool, namemode: string, namesep: string)
    requires Keyed(Pairs(UnionAll(L, args)))
    ensures Union(Build(L, [], sep, withname, namemode, namesep), args).values == UnionAll(L, args)
  {
    var u := UnionAll(L, args);
    assert u == L + u[|L|..];
    PairsAppend(L, u[|L|..]);
    assert Keyed(Pairs(L)) by {
      forall i, j | 0 <= i < j < |L| ensures Pairs(L)[i].0 != Pairs(L)[j].0 {
        assert Pairs(L)[i] == Pairs(u)[i] && Pairs(L)[j] == Pairs(u)[j];
      }
    }
    BuildKeepsOrder(L, sep, withname, namemode, namesep);
    CollectKeyed(Pairs(u));
    SortedAuto(Pairs(L), Pairs(u[|L|..]));
    ValsPairs(u);
  }

  /** `self + right`: orders must agree (AttributeError); the values are
      the set of both, given here in the set's iteration order. */
  function Plus(n: NIndex, right: NIndex, members: seq<Index>): (r: Result<NIndex>)
    requires NoDup(members)
    requires forall x :: x in members <==> x in n.values || x in right.values
    ensures r.Err? <==> n.order != right.order
    ensures r.Err? ==> r.error == AttributeError
    ensures r.Ok? ==> r.value == CopyWith(n, members)
  {
    if n.order != right.order then Err(AttributeError)
    else Ok(CopyWith(n, members))
  }

  /** `self - right`: orders must agree (AttributeError); the values are
      the set difference, given in the set's iteration order. */
  function Minus(n: NIndex, right: NIndex, members: seq<Index>): (r: Result<NIndex>)
    requires NoDup(members)
    requires forall x :: x in members <==> x in n.values && x !in right.values
    ensures r.Err? <==> n.order != right.order
    ensures r.Err? ==> r.error == AttributeError
    ensures r.Ok? ==> r.value == CopyWith(n, members)
  {
    if n.order != right.order then Err(AttributeError)
    else Ok(CopyWith(n, members))
  }

  /** With distinct names, `+` holds exactly the indices of either side. */
  lemma PlusMeaning(n: NIndex, right: NIndex, members: seq<Index>)
    requires NoDup(members) && Consistent(Pairs(members))
    requires forall x :: x in members <==> x in n.values || x in right.values
    requires n.order == right.order
    ensures forall x :: x in Plus(n, right, members).value.values <==> x in n.values || x in right.values
  {
    BuildMembers(members, n.order, n.sep, n.withname, n.namemode, n.namesep);
  }

  /** With distinct names, `-` holds exactly the left indices that are not
      on the right. */
  lemma MinusMeaning(n: NIndex, right: NIndex, members: seq<Index>)
    requires NoDup(members) && Consistent(Pairs(members))
    requires forall x :: x in members <==> x in n.values && x !in right.values
    requires n.order == right.order
    ensures forall x :: x in Minus(n, right, members).value.values <==> x in n.values && x !in right.values
  {
    BuildMembers(members, n.order, n.sep, n.withname, n.namemode, n.namesep);
  }

  // ---------------------------------------------------------------------
  // Removing and splitting by names

  /** The `names` argument of `rest` and `split`: one name, a list, tuple
      or set of them (possibly nested), or anything else. */
  datatype Names = One(key: Key) | Group(items: seq<Names>) | Other

  /** Whether an index name is designated somewhere in the names. */
  predicate Mentioned(g: Names, n: Name)
    decreases g
  {
    match g
    case One(k) => Matches(n, k)
    case Group(items) => exists i :: 0 <= i < |items| && Mentioned(items[i], n)
    case Other => false
  }

  /** `_rest(tmpdict, names)` for one element: a name is popped (KeyError
      if absent), a nested group is walked, anything else is ignored. */
  function RestAll<V>(d: Items<V>, g: Names): (r: Result<Items<V>>)
    ensures r.Err? ==> r.error == KeyError
    decreases g, 1
  {
    match g
    case One(k) => DelItem(d, k)
    case Group(_) => RestFrom(d, g, 0)
    case Other => Ok(d)
  }

  /** The loop of `_rest` over the elements of a group from the `i`th on. */
  function RestFrom<V>(d: Items<V>, g: Names, i: nat): (r: Result<Items<V>>)
    requires g.Group? && i <= |g.items|
    ensures r.Err? ==> r.error == KeyError
    decreases g, 0, |g.items| - i
  {
    if i == |g.items| then Ok(d)
    else
      var d' :- RestAll(d, g.items[i]);
      RestFrom(d', g, i + 1)
  }

  /** Removing a name from an unambiguous dictionary removes exactly the
      entry that name designates. */
  lemma DelMeaning<V>(d: Items<V>, k: Key)
    requires Unambiguous(d) && DelItem(d, k).Ok?
    ensures Unambiguous(DelItem(d, k).value)
    ensures forall e :: e in DelItem(d, k).value <==> e in d && !Matches(e.0, k)
  {
    var i := Find(d, k).value;
    var r := d[..i] + d[i + 1..];
    assert DelItem(d, k).value == r;
    RemoveUnambiguous(d, i);
    forall e | e in r ensures e in d && !Matches(e.0, k) {
      DelKept(d, i, k, e);
    }
    forall e | e in d && !Matches(e.0, k) ensures e in r {
      DelKeeps(d, i, k, e);
    }
  }

  /** What is left after removing the entry a key matches comes from the
      dictionary and does not match the key. */
  lemma DelKept<V>(d: Items<V>, i: nat, k: Key, e: (Name, V))
    requires Unambiguous(d) && i < |d| && Matches(d[i].0, k)
    requires e in d[..i] + d[i + 1..]
    ensures e in d && !Matches(e.0, k)
  {
    var r := d[..i] + d[i + 1..];
    var x :| 0 <= x < |r| && r[x] == e;
    var x' := if x < i then x else x + 1;
    assert e == d[x'];
    if Matches(e.0, k) { OnlyMatch(d, i, x', k); }
  }

  /** An entry that does not match the key survives its removal. */
  lemma DelKeeps<V>(d: Items<V>, i: nat, k: Key, e: (Name, V))
    requires i < |d| && Matches(d[i].0, k)
    requires e in d && !Matches(e.0, k)
    ensures e in d[..i] + d[i + 1..]
  {
    var r := d[..i] + d[i + 1..];
    var x :| 0 <= x < |d| && d[x] == e;
    if x < i { assert r[x] == e; } else { assert r[x - 1] == e; }
  }

  /** `_rest` on an unambiguous dictionary removes exactly the entries the
      names designate. */
  lemma {:induction false} RestAllMeaning<V>(d: Items<V>, g: Names)
    requires Unambiguous(d) && RestAll(d, g).Ok?
    ensures Unambiguous(RestAll(d, g).value)
    ensures forall e :: e in RestAll(d, g).value <==> e in d && !Mentioned(g, e.0)
    decreases g, 1
  {
    match g
    case One(k) =>
      DelMeaning(d, k);
    case Group(items) =>
      RestFromMeaning(d, g, 0);
    case Other =>
  }

  lemma {:induction false} RestFromMeaning<V>(d: Items<V>, g: Names, i: nat)
    requires g.Group? && i <= |g.items|
    requires Unambiguous(d) && RestFrom(d, g, i).Ok?
    ensures Unambiguous(RestFrom(d, g, i).value)
    ensures forall e :: e in RestFrom(d, g, i).value <==>
              e in d && !exists j :: i <= j < |g.items| && Mentioned(g.items[j], e.0)
    decreases g, 0, |g.items| - i
  {
    if i < |g.items| {
      var d' := RestAll(d, g.items[i]).value;
      RestAllMeaning(d, g.items[i]);
      RestFromMeaning(d', g, i + 1);
      forall e: (Name, V) ensures (exists j :: i <= j < |g.items| && Mentioned(g.items[j], e.0)) <==>
                       Mentioned(g.items[i], e.0) || exists j :: i + 1 <= j < |g.items| && Mentioned(g.items[j], e.0) {
        if exists j :: i <= j < |g.items| && Mentioned(g.items[j], e.0) {
          var j :| i <= j < |g.items| && Mentioned(g.items[j], e.0);
          if j > i { assert i + 1 <= j; }
        }
      }
    }
  }

  /** `rest(names)`: nothing for an index without values or for an empty
      group; a group removes every designated index (KeyError for a name
      that is not there) and gives nothing when none remain; a single name
      removes its index; any other argument raises TypeError. */
  function Rest(n: NIndex, g: Names): (r: Result<Option<NIndex>>)
    ensures n.values == [] ==> r == Ok(None)
    ensures n.values != [] && g.Other? ==> r == Err(TypeError)
    ensures n.values != [] && g.Group? && g.items == [] ==> r == Ok(None)
    ensures r.Err? ==> r.error == KeyError || r.error == TypeError
    ensures n.values != [] && g.One? ==> (r.Ok? <==> Contains(n.dict, g.key))
  {
    if n.values == [] then Ok(None)
    else match g
      case Group(items) =>
        if items == [] then Ok(None)
        else
          var left :- RestAll(n.dict, g);
          if left == [] then Ok(None) else Ok(Some(CopyWith(n, Vals(left))))
      case One(k) =>
        var left :- DelItem(n.dict, k);
        Ok(Some(CopyWith(n, Vals(left))))
      case Other => Err(TypeError)
  }

  /** An index dictionary whose entries are keyed by their own names. */
  predicate SelfKeyed(d: Items<Index>)
  {
    forall i :: 0 <= i < |d| ==> d[i].0 == d[i].1.name
  }

  /** With an unambiguous dictionary, `rest` holds exactly the indices the
      names do not designate. */
  lemma RestMeaning(n: NIndex, g: Names)
    requires Unambiguous(n.dict) && SelfKeyed(n.dict) && !g.One?
    requires Rest(n, g).Ok? && Rest(n, g).value.Some?
    ensures forall x :: x in Rest(n, g).value.value.values <==> (x.name, x) in n.dict && !Mentioned(g, x.name)
  {
    var left := RestAll(n.dict, g).value;
    RestAllMeaning(n.dict, g);
    var L := Vals(left);
    assert Pairs(L) == left by {
      forall i | 0 <= i < |left| ensures Pairs(L)[i] == left[i] {
        assert left[i] in n.dict;
        var j :| 0 <= j < |n.dict| && n.dict[j] == left[i];
      }
    }
    UnambiguousIsKeyed(left);
    KeyedConsistent(left);
    BuildMembers(L, n.order, n.sep, n.withname, n.namemode, n.namesep);
    forall x ensures x in L <==> (x.name, x) in left {
      if x in L {
        var i :| 0 <= i < |L| && L[i] == x;
        assert left[i] == (x.name, x);
      }
      if (x.name, x) in left {
        var i :| 0 <= i < |left| && left[i] == (x.name, x);
        assert L[i] == x;
      }
    }
  }

  /** `__split` for each name of a group, in order: a name must designate
      an index (ValueError), and nested groups or other values raise
      TypeError. */
  function SplitPicks<V>(d: Items<V>, items: seq<Names>): (r: Result<seq<V>>)
    ensures r.Ok? <==> forall i :: 0 <= i < |items| ==> items[i].One? && Contains(d, items[i].key)
    ensures r.Ok? ==> |r.value| == |items|
    ensures r.Ok? ==> forall i :: 0 <= i < |items| ==> r.value[i] == d[Find(d, items[i].key).value].1
    ensures r.Err? ==> r.error == ValueError || r.error == TypeError
    ensures r.Err? && (forall i :: 0 <= i < |items| ==> items[i].One?) ==> r.error == ValueError
    decreases |items|
  {
    if items == [] then Ok([])
    else if !items[0].One? then Err(TypeError)
    else
      match Find(d, items[0].key)
      case None => Err(ValueError)
      case Some(i) =>
        var rest :- SplitPicks(d, items[1..]);
        assert forall j :: 1 <= j < |items| ==> items[j] == items[1..][j - 1];
        Ok([d[i].1] + rest)
  }

  /** `split(names, rest)`: the indices the names designate, and what
      `rest` leaves when asked; names that are not a group raise
      TypeError. */
  function Split(n: NIndex, g: Names, withRest: bool): (r: Result<(NIndex, Option<NIndex>)>)
    ensures !g.Group? ==> r == Err(TypeError)
    ensures g.Group? && SplitPicks(n.dict, g.items).Err? ==> r == Err(SplitPicks(n.dict, g.items).error)
    ensures r.Ok? ==> r.value.0 == CopyWith(n, SplitPicks(n.dict, g.items).value)
    ensures r.Ok? && !withRest ==> r.value.1 == None
  {
    match g
    case Group(items) =>
      var picks :- SplitPicks(n.dict, items);
      var first := CopyWith(n, picks);
      if withRest then
        var left :- Rest(n, g);
        Ok((first, left))
      else Ok((first, None))
    case _ => Err(TypeError)
  }

  /** Splitting by a name that designates no index raises ValueError. */
  lemma SplitUnknownName(n: NIndex, items: seq<Names>, i: nat, withRest: bool)
    requires i < |items| && forall j :: 0 <= j < |items| ==> items[j].One?
    requires !Contains(n.dict, items[i].key)
    ensures Split(n, Group(items), withRest) == Err(ValueError)
  {
  }

  /** With an unambiguous dictionary of indices keyed by their names,
      splitting keeps exactly the designated indices. */
  lemma SplitMeaning(n: NIndex, items: seq<Names>, withRest: bool)
    requires Unambiguous(n.dict) && SelfKeyed(n.dict)
    requires Split(n, Group(items), withRest).Ok?
    ensures forall x :: x in Split(n, Group(items), withRest).value.0.values <==>
              (x.name, x) in n.dict && Mentioned(Group(items), x.name)
  {
    var d := n.dict;
    var picks := SplitPicks(d, items).value;
    PicksConsistent(d, items, picks);
    BuildMembers(picks, n.order, n.sep, n.withname, n.namemode, n.namesep);
    PicksMeaning(d, items, picks);
  }

  /** Two picks under the same name are the same index. */
  lemma PicksConsistent(d: Items<Index>, items: seq<Names>, picks: seq<Index>)
    requires Unambiguous(d) && SelfKeyed(d) && SplitPicks(d, items) == Ok(picks)
    ensures Consistent(Pairs(picks))
  {
    forall a, b | 0 <= a < |picks| && 0 <= b < |picks| && Pairs(picks)[a].0 == Pairs(picks)[b].0
      ensures Pairs(picks)[a].1 == Pairs(picks)[b].1
    {
      var ia := Find(d, items[a].key).value;
      var ib := Find(d, items[b].key).value;
      NameDetermines(d, ia, ib);
    }
  }

  /** In an unambiguous dictionary an entry's name determines the entry. */
  lemma NameDetermines<V>(d: Items<V>, i: nat, j: nat)
    requires Unambiguous(d) && i < |d| && j < |d| && d[i].0 == d[j].0
    ensures i == j
  {
  }

  /** The picks are exactly the indices of the dictionary that the names
      designate. */
  lemma PicksMeaning(d: Items<Index>, items: seq<Names>, picks: seq<Index>)
    requires Unambiguous(d) && SelfKeyed(d) && SplitPicks(d, items) == Ok(picks)
    ensures forall x :: x in picks <==> (x.name, x) in d && Mentioned(Group(items), x.name)
  {
    forall x: Index | x in picks ensures (x.name, x) in d && Mentioned(Group(items), x.name) {
      var i :| 0 <= i < |picks| && picks[i] == x;
      PickDesignated(d, items, picks, i);
    }
    DesignatedAllPicked(d, items, picks);
  }

  /** Every index of the dictionary that some name designates is picked. */
  lemma DesignatedAllPicked(d: Items<Index>, items: seq<Names>, picks: seq<Index>)
    requires Unambiguous(d) && SplitPicks(d, items) == Ok(picks)
    ensures forall x: Index :: (x.name, x) in d && Mentioned(Group(items), x.name) ==> x in picks
  {
    forall x: Index | (x.name, x) in d && Mentioned(Group(items), x.name) ensures x in picks {
      var j :| 0 <= j < |d| && d[j] == (x.name, x);
      var i :| 0 <= i < |items| && Mentioned(items[i], x.name);
      DesignatedPicked(d, items, picks, j, i);
    }
  }

  /** The `i`th pick is an index of the dictionary that the `i`th name designates. */
  lemma PickDesignated(d: Items<Index>, items: seq<Names>, picks: seq<Index>, i: nat)
    requires SelfKeyed(d) && SplitPicks(d, items) == Ok(picks) && i < |picks|
    ensures (picks[i].name, picks[i]) in d && Mentioned(Group(items), picks[i].name)
  {
    var f := Find(d, items[i].key).value;
    assert d[f] == (picks[i].name, picks[i]);
    assert Mentioned(items[i], picks[i].name);
  }

  /** An entry the `i`th name designates is the `i`th pick. */
  lemma DesignatedPicked(d: Items<Index>, items: seq<Names>, picks: seq<Index>, j: nat, i: nat)
    requires Unambiguous(d) && SplitPicks(d, items) == Ok(picks)
    requires j < |d| && i < |items| && Mentioned(items[i], d[j].0)
    ensures picks[i] == d[j].1
  {
    var f := Find(d, items[i].key).value;
    OnlyMatch(d, f, j, items[i].key);
  }

  // ---------------------------------------------------------------------
  // n-dimensional instances (`GNIndexInstance`)

  /** `GNIndexInstance`: one instance per index, sorted by the order, the
      name dictionary built at construction, and formatting options. */
  datatype NInstance = NInstance(instances: seq<Instance>, order: seq<OrderItem>, dict: Items<Instance>,
                                 sep: string, withname: bool, namemode: string, namesep: string)

  /** The entries `{val.name: val for val in instances}` is built from. */
  function InstPairs(L: seq<Instance>): (r: Items<Instance>)
    ensures |r| == |L| && forall i :: 0 <= i < |L| ==> r[i] == (L[i].name, L[i])
  {
    seq(|L|, i requires 0 <= i < |L| => (L[i].name, L[i]))
  }

  /** The constructor once the name mode is known to be valid: the
      dictionary is built, an empty order becomes the automatic one, and
      the instances are sorted by it with every instance kept once (the
      corrected `sort`, see `SortInstancesAsWritten`). */
  function BuildInstance(L: seq<Instance>, order: seq<OrderItem>, sep: string, withname: bool, namemode: string, namesep: string): (r: NInstance)
    ensures r.dict == Collect(InstPairs(L))
    ensures order == [] ==> r.order == AutoOrder(InstPairs(L))
    ensures order != [] ==> r.order == order
    ensures multiset(r.instances) == multiset(Vals(r.dict))
  {
    var d := Collect(InstPairs(L));
    var o := if order == [] then AutoOrder(InstPairs(L)) else order;
    NInstance(Sorted(d, o), o, d, sep, withname, namemode, namesep)
  }

  /** `GNIndexInstance(instances, order, ...)`: the name mode is validated
      (ValueError). */
  function NewInstance(L: seq<Instance>, order: seq<OrderItem>, sep: string, withname: bool, namemode: string, namesep: string): (r: Result<NInstance>)
    ensures r.Ok? <==> ValidNamemode(namemode)
    ensures r.Err? ==> r.error == ValueError
    ensures r.Ok? ==> r.value.dict == Collect(InstPairs(L)) && r.value.order != []
    ensures r.Ok? ==> multiset(r.value.instances) == multiset(Vals(r.value.dict))
    ensures r.Ok? && order != [] ==> r.value.order == order
    ensures r.Ok? && order == [] ==> r.value.order == AutoOrder(InstPairs(L))
  {
    if !ValidNamemode(namemode) then Err(ValueError)
    else Ok(BuildInstance(L, order, sep, withname, namemode, namesep))
  }

  /** The instances of the entries `InstPairs` lists. */
  lemma ValsInstPairs(L: seq<Instance>)
    ensures Vals(InstPairs(L)) == L
  {
  }

  /** Instances of distinct indices are each kept exactly once. */
  lemma InstancesKeptOnce(L: seq<Instance>, order: seq<OrderItem>, sep: string, withname: bool, namemode: string, namesep: string)
    requires Keyed(InstPairs(L))
    ensures multiset(BuildInstance(L, order, sep, withname, namemode, namesep).instances) == multiset(L)
  {
    var r := BuildInstance(L, order, sep, withname, namemode, namesep);
    assert multiset(r.instances) == multiset(Vals(r.dict));
    CollectKeyed(InstPairs(L));
    assert r.dict == InstPairs(L);
    ValsInstPairs(L);
  }

  /** `[self.dict[name] for name in order if name in self.dict]`: unlike
      the index sort, nothing is popped, so a name met twice picks its
      instance twice. */
  function Looked(d: Items<Instance>, order: seq<OrderItem>): (r: seq<Instance>)
    ensures |r| <= |order|
    ensures forall x :: x in r ==> x in Vals(d)
    decreases |order|
  {
    if order == [] then []
    else
      var head := if InDict(d, order[0]) then [GetItem(d, Text(order[0].s)).value] else [];
      assert forall x :: x in head ==> x in Vals(d) by {
        if InDict(d, order[0]) {
          var i :| 0 <= i < |d| && Matches(d[i].0, Text(order[0].s)) && GetItem(d, Text(order[0].s)).value == d[i].1;
          assert Vals(d)[i] == d[i].1;
        }
      }
      head + Looked(d, order[1..])
  }

  /** `[self.dict[key] for key in keys]` over the keys the dictionary holds. */
  function KeyValues(d: Items<Instance>, keys: seq<Name>): (r: seq<Instance>)
    ensures (forall nm :: nm in keys ==> Contains(d, Named(nm))) ==> |r| == |keys|
    ensures forall x :: x in r ==> x in Vals(d)
    decreases |keys|
  {
    if keys == [] then []
    else
      var head := match GetItem(d, Named(keys[0])) case Ok(v) => [v] case Err(_) => [];
      assert forall x :: x in head ==> x in Vals(d) by {
        if Contains(d, Named(keys[0])) {
          var i :| 0 <= i < |d| && Matches(d[i].0, Named(keys[0])) && GetItem(d, Named(keys[0])).value == d[i].1;
          assert Vals(d)[i] == d[i].1;
        }
      }
      head + KeyValues(d, keys[1..])
  }

  /** `GNIndexInstance.sort` as written: when the order misses some
      instance, `set(self.dict.keys()) - set(order)` subtracts strings from
      index names, removes nothing, and every key's instance is appended
      again; `keys` is the iteration order of that set. */
  function SortInstancesAsWritten(L: seq<Instance>, d: Items<Instance>, order: seq<OrderItem>, keys: seq<Name>): (r: seq<Instance>)
    ensures |Looked(d, order)| == |L| ==> r == Looked(d, order)
    ensures |Looked(d, order)| != |L| ==> |r| >= |Looked(d, order)| && r[..|Looked(d, order)|] == Looked(d, order)
    ensures |Looked(d, order)| != |L| && (forall nm :: nm in keys ==> Contains(d, Named(nm))) ==>
              |r| == |Looked(d, order)| + |keys|
    ensures forall x :: x in r ==> x in Vals(d)
  {
    var picked := Looked(d, order);
    if |picked| != |L| then picked + KeyValues(d, keys) else picked
  }

  /** Lookups in a dictionary of two instances with apart names. */
  lemma LookupTwo(a: Instance, b: Instance)
    requires Apart(a.name, b.name)
    ensures GetItem([(a.name, a), (b.name, b)], Text(a.name.short)) == Ok(a)
    ensures GetItem([(a.name, a), (b.name, b)], Named(a.name)) == Ok(a)
    ensures GetItem([(a.name, a), (b.name, b)], Named(b.name)) == Ok(b)
  {
    var d := [(a.name, a), (b.name, b)];
    FindFirst(d, 0, Text(a.name.short));
    FindFirst(d, 0, Named(a.name));
    FindFirst(d, 1, Named(b.name));
  }

  lemma KeyValuesTwo(d: Items<Instance>, k0: Name, k1: Name, x0: Instance, x1: Instance)
    requires GetItem(d, Named(k0)) == Ok(x0) && GetItem(d, Named(k1)) == Ok(x1)
    ensures KeyValues(d, [k0, k1]) == [x0, x1]
  {
    assert [k0, k1][1..] == [k1];
    assert [k1][1..] == [];
  }

  lemma LookedOne(d: Items<Instance>, s: string, x: Instance)
    requires GetItem(d, Text(s)) == Ok(x)
    ensures Looked(d, [OName(s)]) == [x]
  {
    assert [OName(s)][1..] == [];
  }

  /** Two instances with apart names (say instance "1" of index a and
      instance "2" of index b) and an order naming only the first: as
      written, the first instance comes out twice, whatever order the set of
      keys is iterated in. */
  lemma SortInstancesAsWrittenDuplicates(a: Instance, b: Instance, keys: seq<Name>)
    requires Apart(a.name, b.name)
    requires keys == [a.name, b.name] || keys == [b.name, a.name]
    ensures Collect(InstPairs([a, b])) == InstPairs([a, b])
    ensures var r := SortInstancesAsWritten([a, b], InstPairs([a, b]), [OName(a.name.short)], keys);
            |r| == 3 && multiset(r)[a] == 2
  {
    var d := InstPairs([a, b]);
    assert d == [(a.name, a), (b.name, b)];
    CollectKeyed(d);
    LookupTwo(a, b);
    LookedOne(d, a.name.short, a);
    if keys[0] == a.name {
      KeyValuesTwo(d, a.name, b.name, a, b);
      assert SortInstancesAsWritten([a, b], d, [OName(a.name.short)], keys) == [a] + [a, b];
    } else {
      KeyValuesTwo(d, b.name, a.name, b, a);
      assert SortInstancesAsWritten([a, b], d, [OName(a.name.short)], keys) == [a] + [b, a];
    }
  }

  // ---------------------------------------------------------------------
  // Iteration: the cartesian product of the instances

  /** `[p + [y] for p in ps for y in b]`: the last element varies
      fastest. */
  function Extend<T>(ps: seq<seq<T>>, b: seq<T>): (r: seq<seq<T>>)
    ensures |r| == |ps| * |b|
    decreases |ps|
  {
    if ps == [] then []
    else
      var tail := Extend(ps[1..], b);
      assert |ps| * |b| == |b| + (|ps| - 1) * |b|;
      seq(|b|, j requires 0 <= j < |b| => ps[0] + [b[j]]) + tail
  }

  /** Position `i * |b| + j` holds the i-th prefix extended by the j-th element. */
  lemma {:induction false} ExtendAt<T>(ps: seq<seq<T>>, b: seq<T>, i: nat, j: nat)
    requires i < |ps| && j < |b|
    ensures i * |b| + j < |Extend(ps, b)|
    ensures Extend(ps, b)[i * |b| + j] == ps[i] + [b[j]]
    decreases |ps|
  {
    if i > 0 {
      ExtendAt(ps[1..], b, i - 1, j);
      assert i * |b| + j == |b| + ((i - 1) * |b| + j);
      assert ps[1..][i - 1] == ps[i];
    }
  }

  /** Every extended sequence is a prefix from `ps` followed by an element of `b`. */
  lemma {:induction false} ExtendMember<T>(ps: seq<seq<T>>, b: seq<T>, q: seq<T>)
    requires q in Extend(ps, b)
    ensures |q| >= 1 && q[..|q| - 1] in ps && q[|q| - 1] in b
    decreases |ps|
  {
    var head := seq(|b|, j requires 0 <= j < |b| => ps[0] + [b[j]]);
    assert Extend(ps, b) == head + Extend(ps[1..], b);
    if q in head {
      var j :| 0 <= j < |b| && head[j] == q;
      assert q[..|q| - 1] == ps[0];
    } else {
      ExtendMember(ps[1..], b, q);
    }
  }

  /** The element counts of some sequences. */
  function Lengths<T>(lists: seq<seq<T>>): (r: seq<nat>)
    ensures |r| == |lists| && forall i :: 0 <= i < |lists| ==> r[i] == |lists[i]|
  {
    seq(|lists|, i requires 0 <= i < |lists| => |lists[i]|)
  }

  /** One element from each list. */
  ghost predicate Choice<T>(q: seq<T>, lists: seq<seq<T>>)
  {
    |q| == |lists| && forall k :: 0 <= k < |lists| ==> q[k] in lists[k]
  }

  /** `itertools.product(*lists)`: as many combinations as the product of
      the lengths, in lexicographic order. */
  function Product<T>(lists: seq<seq<T>>): (r: seq<seq<T>>)
    ensures |r| == Prod(Lengths(lists))
    decreases |lists|
  {
    if lists == [] then [[]]
    else
      var n := |lists| - 1;
      assert Lengths(lists)[..n] == Lengths(lists[..n]);
      Extend(Product(lists[..n]), lists[n])
  }

  lemma {:induction false} ProductSound<T>(lists: seq<seq<T>>, q: seq<T>)
    requires q in Product(lists)
    ensures Choice(q, lists)
    decreases |lists|
  {
    if lists != [] {
      var n := |lists| - 1;
      ExtendMember(Product(lists[..n]), lists[n], q);
      var p := q[..|q| - 1];
      ProductSound(lists[..n], p);
      forall k | 0 <= k < |lists| ensures q[k] in lists[k] {
        if k < n {
          assert q[k] == p[k];
        }
      }
    }
  }

  lemma {:induction false} ProductComplete<T>(lists: seq<seq<T>>, q: seq<T>)
    requires Choice(q, lists)
    ensures q in Product(lists)
    decreases |lists|
  {
    if lists == [] {
      assert q == [];
    } else {
      var n := |lists| - 1;
      var p := q[..n];
      assert Choice(p, lists[..n]) by {
        forall k | 0 <= k < n ensures p[k] in lists[..n][k] {
          assert q[k] in lists[k];
        }
      }
      ProductComplete(lists[..n], p);
      var P := Product(lists[..n]);
      var i :| 0 <= i < |P| && P[i] == p;
      assert q[n] in lists[n];
      var j :| 0 <= j < |lists[n]| && lists[n][j] == q[n];
      ExtendHas(P, lists[n], i, j);
      assert q == p + [q[n]];
      assert Product(lists) == Extend(P, lists[n]);
    }
  }

  /** Every prefix extended by every element is in the extension. */
  lemma {:induction false} ExtendHas<T>(ps: seq<seq<T>>, b: seq<T>, i: nat, j: nat)
    requires i < |ps| && j < |b|
    ensures ps[i] + [b[j]] in Extend(ps, b)
    decreases |ps|
  {
    var head := seq(|b|, k requires 0 <= k < |b| => ps[0] + [b[k]]);
    assert Extend(ps, b) == head + Extend(ps[1..], b);
    if i == 0 {
      assert head[j] == ps[0] + [b[j]];
    } else {
      ExtendHas(ps[1..], b, i - 1, j);
      assert ps[1..][i - 1] == ps[i];
    }
  }

  /** The product holds exactly the choices of one element per list. */
  lemma ProductChoices<T>(lists: seq<seq<T>>)
    ensures forall q :: q in Product(lists) ==> Choice(q, lists)
    ensures forall q :: Choice(q, lists) ==> q in Product(lists)
  {
    forall q | q in Product(lists) ensures Choice(q, lists) {
      ProductSound(lists, q);
    }
    forall q | Choice(q, lists) ensures q in Product(lists) {
      ProductComplete(lists, q);
    }
  }

  /** Lexicographic order: the combinations of the leading lists in their
      own order, each followed by every element of the last list. */
  lemma ProductOrder<T>(lists: seq<seq<T>>, i: nat, j: nat)
    requires lists != []
    requires i < |Product(lists[..|lists| - 1])| && j < |lists[|lists| - 1]|
    ensures i * |lists[|lists| - 1]| + j < |Product(lists)|
    ensures Product(lists)[i * |lists[|lists| - 1]| + j] == Product(lists[..|lists| - 1])[i] + [lists[|lists| - 1][j]]
  {
    ExtendAt(Product(lists[..|lists| - 1]), lists[|lists| - 1], i, j);
  }

  /** The instances of each index of an n-dimensional index. */
  function InstanceLists(n: NIndex): (r: seq<seq<Instance>>)
    ensures |r| == |n.values| && forall i :: 0 <= i < |r| ==> r[i] == Instances(n.values[i])
  {
    seq(|n.values|, i requires 0 <= i < |n.values| => Instances(n.values[i]))
  }

  /** The sizes of the indices. */
  function Sizes(n: NIndex): (r: seq<nat>)
    ensures |r| == |n.values| && forall i :: 0 <= i < |r| ==> r[i] == Size(n.values[i])
  {
    seq(|n.values|, i requires 0 <= i < |n.values| => Size(n.values[i]))
  }

  /** `__iter__`: one n-dimensional instance per element of the product of
      the indices' instances, as many as the product of the sizes, each with
      the index's order and options. */
  function Iter(n: NIndex): (r: seq<NInstance>)
    ensures |r| == Prod(Sizes(n))
    ensures forall k :: 0 <= k < |r| ==>
              (r[k].sep == n.sep && r[k].withname == n.withname && r[k].namemode == n.namemode && r[k].namesep == n.namesep)
    ensures n.order != [] ==> forall k :: 0 <= k < |r| ==> r[k].order == n.order
  {
    var P := Product(InstanceLists(n));
    assert Lengths(InstanceLists(n)) == Sizes(n);
    seq(|P|, k requires 0 <= k < |P| => BuildInstance(P[k], n.order, n.sep, n.withname, n.namemode, n.namesep))
  }

  /** Instances named like the indices, in index order, keep that order
      under the indices' automatic order. */
  lemma SameNamesKept(L: seq<Index>, p: seq<Instance>, sep: string, withname: bool, namemode: string, namesep: string)
    requires Keyed(Pairs(L)) && |p| == |L|
    requires forall i :: 0 <= i < |p| ==> p[i].name == L[i].name
    ensures BuildInstance(p, AutoOrder(Pairs(L)), sep, withname, namemode, namesep).instances == p
  {
    var d := InstPairs(p);
    assert Shorts(d) == Shorts(Pairs(L));
    assert AutoOrder(d) == AutoOrder(Pairs(L));
    assert Keyed(d) by {
      forall i, j | 0 <= i < j < |p| ensures d[i].0 != d[j].0 {
        assert Pairs(L)[i].0 != Pairs(L)[j].0;
      }
    }
    CollectKeyed(d);
    SortedAuto(d, []);
    assert d + [] == d;
    ValsInstPairs(p);
  }

  /** A choice of one instance per index carries the indices' names. */
  lemma ChoiceNames(L: seq<Index>, p: seq<Instance>, n: NIndex)
    requires n.values == L && Choice(p, InstanceLists(n))
    ensures |p| == |L| && forall i :: 0 <= i < |p| ==> p[i].name == L[i].name
  {
    forall i | 0 <= i < |p| ensures p[i].name == L[i].name {
      assert p[i] in Instances(L[i]);
      var j :| 0 <= j < |Instances(L[i])| && Instances(L[i])[j] == p[i];
    }
  }

  /** For an index built with the automatic order from indices with
      distinct names, each n-dimensional instance keeps the combination in
      index order. */
  lemma IterKeepsCombination(L: seq<Index>, sep: string, withname: bool, namemode: string, namesep: string)
    requires Keyed(Pairs(L))
    ensures var n := Build(L, [], sep, withname, namemode, namesep);
            forall k :: 0 <= k < |Iter(n)| ==> Iter(n)[k].instances == Product(InstanceLists(n))[k]
  {
    BuildKeepsOrder(L, sep, withname, namemode, namesep);
    var n := Build(L, [], sep, withname, namemode, namesep);
    var P := Product(InstanceLists(n));
    assert n.order == AutoOrder(Pairs(L));
    forall k | 0 <= k < |Iter(n)| ensures Iter(n)[k].instances == P[k] {
      assert Iter(n)[k] == BuildInstance(P[k], n.order, n.sep, n.withname, n.namemode, n.namesep);
      ProductSound(InstanceLists(n), P[k]);
      ChoiceNames(L, P[k], n);
      SameNamesKept(L, P[k], n.sep, n.withname, n.namemode, n.namesep);
    }
  }

  // ---------------------------------------------------------------------
  // Formatting an n-dimensional instance

  /** The pieces `format` joins: per order entry, the formatted instance it
      names, or the string where the order holds `True` (equal to 1). */
  function FormatPieces(d: Items<Instance>, order: seq<OrderItem>, text: string): string
    decreases |order|
  {
    if order == [] then ""
    else
      (if InDict(d, order[0]) then Formatted(GetItem(d, Text(order[0].s)).value)
       else if order[0] == OInt(1) then text
       else "") + FormatPieces(d, order[1..], text)
  }

  /** `format(string)`. */
  method Format(ni: NInstance, text: string) returns (r: string)
    ensures r == FormatPieces(ni.dict, ni.order, text)
  {
    r := "";
    var i := 0;
    while i < |ni.order|
      invariant 0 <= i <= |ni.order|
      invariant r + FormatPieces(ni.dict, ni.order[i..], text) == FormatPieces(ni.dict, ni.order, text)
    {
      assert ni.order[i..][1..] == ni.order[i + 1..];
      var o := ni.order[i];
      var piece := "";
      if InDict(ni.dict, o) {
        var x := GetItem(ni.dict, Text(o.s));
        piece := Formatted(x.value);
      } else if o == OInt(1) {
        piece := text;
      }
      r := r + piece;
      i := i + 1;
    }
    assert ni.order[i..] == [];
  }

  /** The instances formatted one after the other. */
  function Joined(L: seq<Instance>): string
    decreases |L|
  {
    if L == [] then "" else Formatted(L[0]) + Joined(L[1..])
  }

  lemma {:induction false} PiecesShorts(L: seq<Instance>, m: nat, text: string)
    requires Unambiguous(InstPairs(L)) && m <= |L|
    ensures FormatPieces(InstPairs(L), Shorts(InstPairs(L))[m..], text) == Joined(L[m..])
    decreases |L| - m
  {
    var d := InstPairs(L);
    if m < |L| {
      var o := Shorts(d)[m..];
      assert o[0] == OName(L[m].name.short) && o[1..] == Shorts(d)[m + 1..];
      forall j | 0 <= j < m ensures !Matches(d[j].0, Text(L[m].name.short)) {
        assert Apart(d[j].0, d[m].0);
      }
      FindFirst(d, m, Text(L[m].name.short));
      PiecesShorts(L, m + 1, text);
      assert L[m..][1..] == L[m + 1..];
    } else {
      assert L[m..] == [];
    }
  }

  /** With the automatic order, `format` puts the string first and then
      every instance formatted, in index order. */
  lemma FormatAutoOrder(L: seq<Instance>, text: string, sep: string, withname: bool, namemode: string, namesep: string)
    requires Unambiguous(InstPairs(L))
    ensures var ni := BuildInstance(L, [], sep, withname, namemode, namesep);
            FormatPieces(ni.dict, ni.order, text) == text + Joined(L)
  {
    var d := InstPairs(L);
    UnambiguousIsKeyed(d);
    CollectKeyed(d);
    var o := AutoOrder(d);
    assert !InDict(d, o[0]) && o[1..] == Shorts(d);
    PiecesShorts(L, 0, text);
    assert L[0..] == L;
    assert Shorts(d)[0..] == Shorts(d);
  }

  /** `if not x: x = default`: an absent or empty option falls back. */
  function OrDefault(x: Option<string>, default: string): string
  {
    if x.None? || x.value == [] then default else x.value
  }

  /** The piece `formatwith` makes of one order entry. */
  function PieceWith(d: Items<Instance>, o: OrderItem, text: string, withname: bool, namemode: string, sep: string, namesep: string): (r: Result<string>)
    ensures r.Err? <==> withname && !ValidNamemode(namemode) && InDict(d, o)
  {
    if InDict(d, o) then FormattedWith(GetItem(d, Text(o.s)).value, withname, namemode, Some(sep), Some(namesep))
    else if o.OInt? then Ok(text)
    else Ok("")
  }

  /** The pieces `formatwith` joins: per order entry, the named instance
      formatted with the given options, or the string where the order holds
      any integer. */
  function FormatWithPieces(d: Items<Instance>, order: seq<OrderItem>, text: string, withname: bool, namemode: string, sep: string, namesep: string): (r: Result<string>)
    ensures r.Err? <==> withname && !ValidNamemode(namemode) && exists o :: o in order && InDict(d, o)
    ensures r.Err? ==> r.error == ValueError
    decreases |order|
  {
    if order == [] then Ok("")
    else
      var head :- PieceWith(d, order[0], text, withname, namemode, sep, namesep);
      var tail :- FormatWithPieces(d, order[1..], text, withname, namemode, sep, namesep);
      assert forall o :: o in order <==> o == order[0] || o in order[1..];
      Ok(head + tail)
  }

  /** A result with a text put in front of its value. */
  function Prefixed(acc: string, r: Result<string>): Result<string>
  {
    if r.Ok? then Ok(acc + r.value) else r
  }

  lemma PiecesStep(d: Items<Instance>, order: seq<OrderItem>, text: string, withname: bool, namemode: string, sep: string, namesep: string)
    requires order != []
    ensures var h := PieceWith(d, order[0], text, withname, namemode, sep, namesep);
            FormatWithPieces(d, order, text, withname, namemode, sep, namesep) ==
            (if h.Err? then Err(h.error) else Prefixed(h.value, FormatWithPieces(d, order[1..], text, withname, namemode, sep, namesep)))
  {
  }

  lemma PrefixedEmpty(r: Result<string>)
    ensures Prefixed("", r) == r
  {
    if r.Ok? {
      assert "" + r.value == r.value;
    }
  }

  lemma PrefixedTwice(a: string, b: string, r: Result<string>)
    ensures Prefixed(a, Prefixed(b, r)) == Prefixed(a + b, r)
  {
    if r.Ok? {
      assert a + (b + r.value) == (a + b) + r.value;
    }
  }

  /** `formatwith(string, withname, namemode, sep, namesep, order)`: an
      absent or empty order, separator or name separator is the instance's
      own; a name mode that is not valid raises ValueError as soon as one
      instance is formatted with the name. */
  method FormatWith(ni: NInstance, text: string, withname: bool, namemode: string,
                    sep: Option<string>, namesep: Option<string>, order: Option<seq<OrderItem>>) returns (r: Result<string>)
    ensures r == FormatWithPieces(ni.dict, if order.None? || order.value == [] then ni.order else order.value,
                                  text, withname, namemode, OrDefault(sep, ni.sep), OrDefault(namesep, ni.namesep))
  {
    var ord := if order.None? || order.value == [] then ni.order else order.value;
    var s := OrDefault(sep, ni.sep);
    var ns := OrDefault(namesep, ni.namesep);
    var acc := "";
    var i := 0;
    assert ord[0..] == ord;
    assert Prefixed("", FormatWithPieces(ni.dict, ord, text, withname, namemode, s, ns)) == FormatWithPieces(ni.dict, ord, text, withname, namemode, s, ns) by {
      PrefixedEmpty(FormatWithPieces(ni.dict, ord, text, withname, namemode, s, ns));
    }
    while i < |ord|
      invariant 0 <= i <= |ord|
      invariant FormatWithPieces(ni.dict, ord, text, withname, namemode, s, ns) ==
                Prefixed(acc, FormatWithPieces(ni.dict, ord[i..], text, withname, namemode, s, ns))
    {
      assert ord[i..][1..] == ord[i + 1..];
      ghost var rest := FormatWithPieces(ni.dict, ord[i + 1..], text, withname, namemode, s, ns);
      PiecesStep(ni.dict, ord[i..], text, withname, namemode, s, ns);
      var o := ord[i];
      var piece: string;
      if InDict(ni.dict, o) {
        var x := GetItem(ni.dict, Text(o.s));
        var f := FormattedWith(x.value, withname, namemode, Some(s), Some(ns));
        if f.Err? {
          return Err(f.error);
        }
        piece := f.value;
      } else if o.OInt? {
        piece := text;
      } else {
        piece := "";
      }
      assert PieceWith(ni.dict, o, text, withname, namemode, s, ns) == Ok(piece);
      PrefixedTwice(acc, piece, rest);
      acc := acc + piece;
      i := i + 1;
    }
    assert ord[i..] == [];
    assert acc + "" == acc;
    return Ok(acc);
  }

  /** All instances carry the options of the n-dimensional instance. */
  predicate SameOptions(ni: NInstance)
  {
    forall i :: 0 <= i < |ni.dict| ==>
      ni.dict[i].1.sep == ni.sep && ni.dict[i].1.withname == ni.withname &&
      ni.dict[i].1.namemode == ni.namemode && ni.dict[i].1.namesep == ni.namesep
  }

  lemma {:induction false} PiecesAgree(ni: NInstance, order: seq<OrderItem>, text: string)
    requires ValidNamemode(ni.namemode) && SameOptions(ni)
    requires forall o :: o in order && o.OInt? ==> o == OInt(1)
    ensures FormatWithPieces(ni.dict, order, text, ni.withname, ni.namemode, ni.sep, ni.namesep) == Ok(FormatPieces(ni.dict, order, text))
    decreases |order|
  {
    if order != [] {
      assert forall o :: o in order[1..] ==> o in order;
      PiecesAgree(ni, order[1..], text);
      if InDict(ni.dict, order[0]) {
        var x := GetItem(ni.dict, Text(order[0].s)).value;
        var i :| 0 <= i < |ni.dict| && Matches(ni.dict[i].0, Text(order[0].s)) && x == ni.dict[i].1;
        FormattedWithOwnOptions(x);
      }
    }
  }

  /** With its own options, `formatwith` is `format`, as long as the only
      integer in the order is `True`. */
  lemma FormatWithOwnOptions(ni: NInstance, text: string)
    requires ValidNamemode(ni.namemode) && SameOptions(ni)
    requires forall o :: o in ni.order && o.OInt? ==> o == OInt(1)
    ensures FormatWithPieces(ni.dict, ni.order, text, ni.withname, ni.namemode,
                             OrDefault(None, ni.sep), OrDefault(None, ni.namesep)) == Ok(FormatPieces(ni.dict, ni.order, text))
  {
    PiecesAgree(ni, ni.order, text);
  }
}
