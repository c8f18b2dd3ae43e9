/** The ordered port container of a node (dagflow/core/edges.py): a
    positional list plus keyword, positional, non-positional and all-edges
    dictionaries.

    Python dictionaries keep insertion order, which `iter_all` and `key`
    expose; an `ODict` is a key order together with a map.  A container here
    is a value: each update returns the new container. */
module Edges {
  import opened Base

  /** What a container stores under a name: one port handle, or the tuple
      that keyword merging builds. */
  datatype Limb = Single(handle: int) | Merged(handles: seq<int>)

  /** A port as the container sees it: its own name and its handle. */
  datatype Port = Port(name: string, handle: int)

  datatype ODict = ODict(keys: seq<string>, m: map<string, Limb>)

  ghost predicate DistinctKeys(keys: seq<string>)
  {
    forall i, j :: 0 <= i < j < |keys| ==> keys[i] != keys[j]
  }

  ghost predicate ValidDict(d: ODict)
  {
    DistinctKeys(d.keys) && (set k | k in d.keys) == d.m.Keys
  }

  const EmptyDict := ODict([], map[])

  /** `d[k] = v`: an existing key keeps its place, a new key goes last. */
  function Put(d: ODict, k: string, v: Limb): (r: ODict)
    ensures r.m == d.m[k := v]
    ensures k in d.m ==> r.keys == d.keys
    ensures k !in d.m ==> r.keys == d.keys + [k]
  {
    if k in d.m then ODict(d.keys, d.m[k := v]) else ODict(d.keys + [k], d.m[k := v])
  }

  function RemoveKey(keys: seq<string>, k: string): (r: seq<string>)
    ensures forall x :: x in r <==> x in keys && x != k
  {
    if keys == [] then []
    else if keys[0] == k then RemoveKey(keys[1..], k)
    else [keys[0]] + RemoveKey(keys[1..], k)
  }

  lemma {:induction false} RemoveKeyDistinct(keys: seq<string>, k: string)
    requires DistinctKeys(keys)
    ensures DistinctKeys(RemoveKey(keys, k))
  {
    if keys != [] {
      RemoveKeyDistinct(keys[1..], k);
      var rest := RemoveKey(keys[1..], k);
      assert keys[0] !in keys[1..];
      assert keys[0] !in rest;
    }
  }

  /** `del d[k]`. */
  function Remove(d: ODict, k: string): (r: ODict)
    ensures r.m == d.m - {k}
  {
    ODict(RemoveKey(d.keys, k), d.m - {k})
  }

  lemma PutValid(d: ODict, k: string, v: Limb)
    requires ValidDict(d)
    ensures ValidDict(Put(d, k, v))
  {
  }

  lemma RemoveValid(d: ODict, k: string)
    requires ValidDict(d)
    ensures ValidDict(Remove(d, k))
  {
    RemoveKeyDistinct(d.keys, k);
  }

  /** The values in insertion order. */
  function Values(d: ODict): (r: seq<Limb>)
    requires ValidDict(d)
    ensures |r| == |d.keys|
    ensures forall i :: 0 <= i < |r| ==> r[i] == d.m[d.keys[i]]
  {
    ValuesOf(d.keys, d.m)
  }

  function ValuesOf(keys: seq<string>, m: map<string, Limb>): (r: seq<Limb>)
    requires forall k :: k in keys ==> k in m
    ensures |r| == |keys|
    ensures forall i :: 0 <= i < |r| ==> r[i] == m[keys[i]]
  {
    if keys == [] then [] else [m[keys[0]]] + ValuesOf(keys[1..], m)
  }

  datatype Edges = Edges(
    kw: ODict,
    posList: seq<Limb>,
    pos: ODict,
    nonpos: ODict,
    all: ODict)

  /** The container invariant: well-formed dictionaries; every keyword name is
      known to `all`; every known name is positional or non-positional. */
  ghost predicate Valid(e: Edges)
  {
    ValidDict(e.kw) && ValidDict(e.pos) && ValidDict(e.nonpos) && ValidDict(e.all) &&
    e.kw.m.Keys <= e.all.m.Keys &&
    e.all.m.Keys == e.pos.m.Keys + e.nonpos.m.Keys
  }

  /** An empty container, as `EdgeContainer()` builds it. */
  const Empty := Edges(EmptyDict, [], EmptyDict, EmptyDict, EmptyDict)

  lemma EmptyValid()
    ensures Valid(Empty)
  {
  }

  function LenPos(e: Edges): nat { |e.posList| }
  function LenKw(e: Edges): nat { |e.kw.keys| }
  function LenAll(e: Edges): nat { |e.all.keys| }
  predicate Contains(e: Edges, name: string) { name in e.all.m }

  /** A list of distinct names has as many names as elements. */
  lemma {:induction false} DistinctCard(keys: seq<string>)
    requires DistinctKeys(keys)
    ensures |set k | k in keys| == |keys|
  {
    if keys != [] {
      var rest := keys[1..];
      assert DistinctKeys(rest) by {
        forall i, j | 0 <= i < j < |rest|
          ensures rest[i] != rest[j]
        {
          assert rest[i] == keys[i + 1] && rest[j] == keys[j + 1];
        }
      }
      DistinctCard(rest);
      assert keys[0] !in rest;
      assert (set k | k in keys) == {keys[0]} + (set k | k in rest);
    }
  }

  /** A subset has no more elements. */
  lemma {:induction false} SubsetCard(a: set<string>, b: set<string>)
    requires a <= b
    ensures |a| <= |b|
    decreases a
  {
    if a != {} {
      var x :| x in a;
      SubsetCard(a - {x}, b - {x});
    }
  }

  /** In a valid container `len_kw` and `len_all` count the names of their
      dictionaries, and there are no more keyword names than names. */
  lemma Counts(e: Edges)
    requires Valid(e)
    ensures LenKw(e) == |e.kw.m.Keys| && LenAll(e) == |e.all.m.Keys| && LenKw(e) <= LenAll(e)
  {
    DistinctCard(e.kw.keys);
    DistinctCard(e.all.keys);
    SubsetCard(e.kw.m.Keys, e.all.m.Keys);
  }

  /** In a valid container `in` finds exactly the names of all edges, in
      their insertion order, and every keyword name among them. */
  lemma ContainsNames(e: Edges, name: string)
    requires Valid(e)
    ensures Contains(e, name) <==> name in e.all.keys
    ensures name in e.kw.m ==> Contains(e, name)
  {
  }

  /** The name an item is stored under: the explicit name if it is non-empty,
      else the port's own name. */
  function NameOf(value: Port, name: Option<string>): string
  {
    if name.Some? && name.value != "" then name.value else value.name
  }

  /** `add` of a single port. */
  function Add(e: Edges, value: Port, name: Option<string>, positional: bool, keyword: bool, merge: bool): (r: Result<Edges>)
    ensures !positional && !keyword ==> r == Err(RuntimeError)
    ensures positional && merge ==> r == Err(RuntimeError)
    ensures NameOf(value, name) == "" ==> r.Err?
    ensures NameOf(value, name) in e.all.m && !(NameOf(value, name) in e.kw.m && merge) ==> r.Err?
    ensures r.Ok? ==> Contains(r.value, NameOf(value, name))
    ensures r.Ok? && positional ==>
      r.value.posList == e.posList + [Single(value.handle)] && r.value.pos.m == e.pos.m[NameOf(value, name) := Single(value.handle)]
    ensures r.Ok? && !positional ==> r.value.posList == e.posList && NameOf(value, name) in r.value.nonpos.m
    ensures r.Ok? && keyword && !merge ==> r.value.kw.m == e.kw.m[NameOf(value, name) := Single(value.handle)]
    ensures r.Ok? && !keyword ==> r.value.kw == e.kw
  {
    if !positional && !keyword then Err(RuntimeError)
    else if positional && merge then Err(RuntimeError)
    else
      var n := NameOf(value, name);
      if n == "" then Err(RuntimeError)
      else if n in e.all.m && !(n in e.kw.m && merge) then Err(RuntimeError)
      else
        var stored :- Stored(e, n, value.handle, keyword && merge);
        Ok(Insert(e, n, stored, positional, keyword))
  }

  /** The item stored for a new port: a merge appends to the tuple already
      stored under the keyword name (adding a tuple to a single port raises
      TypeError). */
  function Stored(e: Edges, n: string, handle: int, merging: bool): (r: Result<Limb>)
  {
    if !merging then Ok(Single(handle))
    else if n !in e.kw.m then Ok(Merged([handle]))
    else match e.kw.m[n]
      case Merged(prev) => Ok(Merged(prev + [handle]))
      case Single(_) => Err(TypeError)
  }

  /** The dictionary and list updates of a successful `add`. */
  function Insert(e: Edges, n: string, stored: Limb, positional: bool, keyword: bool): (r: Edges)
    ensures r.all.m.Keys == e.all.m.Keys + {n}
  {
    var kw := if keyword then Put(e.kw, n, stored) else e.kw;
    var all := Put(e.all, n, stored);
    if positional then
      Edges(kw, e.posList + [stored], Put(e.pos, n, stored), e.nonpos, all)
    else
      Edges(kw, e.posList, e.pos, Put(e.nonpos, n, stored), all)
  }

  lemma InsertKeepsValid(e: Edges, n: string, stored: Limb, positional: bool, keyword: bool)
    requires Valid(e)
    ensures Valid(Insert(e, n, stored, positional, keyword))
  {
    var kw := if keyword then Put(e.kw, n, stored) else e.kw;
    if keyword { PutValid(e.kw, n, stored); }
    if positional {
      InsertPositional(e, n, stored, kw);
    } else {
      InsertNonPositional(e, n, stored, kw);
    }
  }

  /** The updates of a positional `add` keep the invariant. */
  lemma InsertPositional(e: Edges, n: string, stored: Limb, kw: ODict)
    requires Valid(e) && ValidDict(kw) && kw.m.Keys <= e.kw.m.Keys + {n}
    ensures Valid(Edges(kw, e.posList + [stored], Put(e.pos, n, stored), e.nonpos, Put(e.all, n, stored)))
  {
    PutValid(e.all, n, stored);
    PutValid(e.pos, n, stored);
  }

  /** The updates of a non-positional `add` keep the invariant. */
  lemma InsertNonPositional(e: Edges, n: string, stored: Limb, kw: ODict)
    requires Valid(e) && ValidDict(kw) && kw.m.Keys <= e.kw.m.Keys + {n}
    ensures Valid(Edges(kw, e.posList, e.pos, Put(e.nonpos, n, stored), Put(e.all, n, stored)))
  {
    PutValid(e.all, n, stored);
    PutValid(e.nonpos, n, stored);
  }

  /** Merging accumulates the ports stored under one keyword name in call
      order; merging onto a single, unmerged port raises TypeError. */
  lemma MergeAccumulates(e: Edges, value: Port, name: Option<string>)
    requires Valid(e) && NameOf(value, name) != ""
    ensures var n := NameOf(value, name);
      var r := Add(e, value, name, false, true, true);
      (n !in e.all.m ==> r.Ok? && r.value.kw.m[n] == Merged([value.handle])) &&
      (n in e.kw.m && e.kw.m[n].Merged? ==> r.Ok? && r.value.kw.m[n] == Merged(e.kw.m[n].handles + [value.handle])) &&
      (n in e.kw.m && e.kw.m[n].Single? ==> r == Err(TypeError))
  {
  }

  /** A successful `add` keeps the container invariant and counts a new name once. */
  lemma AddKeepsValid(e: Edges, value: Port, name: Option<string>, positional: bool, keyword: bool, merge: bool, r: Edges)
    requires Valid(e)
    requires Add(e, value, name, positional, keyword, merge) == Ok(r)
    ensures Valid(r)
    ensures NameOf(value, name) !in e.all.m ==>
      LenAll(r) == LenAll(e) + 1 &&
      LenPos(r) == LenPos(e) + (if positional then 1 else 0) &&
      LenKw(r) == LenKw(e) + (if keyword then 1 else 0)
  {
    var n := NameOf(value, name);
    var stored := Stored(e, n, value.handle, keyword && merge).value;
    assert r == Insert(e, n, stored, positional, keyword);
    InsertKeepsValid(e, n, stored, positional, keyword);
    if n !in e.all.m {
      assert n !in e.kw.m;
    }
  }

  /** `add` of an iterable: each port is added in turn (without an explicit
      name); the first failure stops the loop and leaves the ports added so
      far in place. */
  function AddEach(e: Edges, values: seq<Port>, positional: bool, keyword: bool, merge: bool): (r: (Edges, Outcome))
    ensures !positional && !keyword ==> r == (e, Fail(RuntimeError))
    ensures positional && merge ==> r == (e, Fail(RuntimeError))
    ensures r.1.Pass? && positional ==> |r.0.posList| == |e.posList| + |values|
  {
    if !positional && !keyword then (e, Fail(RuntimeError))
    else if positional && merge then (e, Fail(RuntimeError))
    else AddAll(e, values, positional, keyword)
  }

  function AddAll(e: Edges, values: seq<Port>, positional: bool, keyword: bool): (r: (Edges, Outcome))
    ensures r.1.Pass? && positional ==> |r.0.posList| == |e.posList| + |values|
    decreases |values|
  {
    if values == [] then (e, Pass)
    else match Add(e, values[0], None, positional, keyword, false)
      case Err(err) => (e, Fail(err))
      case Ok(e1) => AddAll(e1, values[1..], positional, keyword)
  }

  /** `make_positional`: the keyword item named `name` joins the positional
      list, at the end or at `index` (which overwrites the item there; Python
      accepts a negative index).  The result pairs the container as left by
      the call with the outcome: the last step, deleting the name from the
      non-positional dictionary, raises KeyError after the list was changed
      when the name is not there. */
  function MakePositional(e: Edges, name: string, index: Option<int>): (r: (Edges, Result<Limb>))
    ensures name !in e.kw.m ==> r == (e, Err(RuntimeError))
    ensures name in e.kw.m && e.kw.m[name] in e.posList ==> r == (e, Err(RuntimeError))
    ensures index.Some? && !(-|e.posList| <= index.value <= |e.posList|) ==> r == (e, Err(RuntimeError))
    ensures r.1.Ok? ==> name in e.kw.m && r.1.value == e.kw.m[name] && e.kw.m[name] !in e.posList
    ensures r.1.Ok? ==> name !in r.0.nonpos.m && r.0.pos.m == e.pos.m[name := r.1.value]
    ensures r.1.Ok? && (index.None? || index.value == |e.posList|) ==> r.0.posList == e.posList + [r.1.value]
    ensures r.1.Ok? && index.Some? && 0 <= index.value < |e.posList| ==> r.0.posList == e.posList[index.value := r.1.value]
    ensures r.1.Err? && r.0 != e ==> r.1.error == KeyError && name !in e.nonpos.m
    ensures r.0.kw == e.kw && r.0.all == e.all
  {
    if name !in e.kw.m then (e, Err(RuntimeError))
    else
      var limb := e.kw.m[name];
      if limb in e.posList then (e, Err(RuntimeError))
      else
        var len := |e.posList|;
        if index.Some? && !(-len <= index.value <= len) then (e, Err(RuntimeError))
        else
          var list :=
            if index.None? || index.value == len then e.posList + [limb]
            else if 0 <= index.value then e.posList[index.value := limb]
            else e.posList[index.value + len := limb];
          var e1 := e.(posList := list, pos := Put(e.pos, name, limb));
          if name in e.nonpos.m then (e1.(nonpos := Remove(e.nonpos, name)), Ok(limb))
          else (e1, Err(KeyError))
  }

  lemma MakePositionalKeepsValid(e: Edges, name: string, index: Option<int>)
    requires Valid(e)
    ensures Valid(MakePositional(e, name, index).0)
  {
    if name in e.kw.m && e.kw.m[name] !in e.posList {
      var limb := e.kw.m[name];
      var len := |e.posList|;
      if !(index.Some? && !(-len <= index.value <= len)) {
        var list :=
          if index.None? || index.value == len then e.posList + [limb]
          else if 0 <= index.value then e.posList[index.value := limb]
          else e.posList[index.value + len := limb];
        if name in e.nonpos.m {
          MovedValid(e, name, limb, list);
          assert MakePositional(e, name, index).0 == e.(posList := list, pos := Put(e.pos, name, limb), nonpos := Remove(e.nonpos, name));
        } else {
          KeptValid(e, name, limb, list);
          assert MakePositional(e, name, index).0 == e.(posList := list, pos := Put(e.pos, name, limb));
        }
      }
    }
  }

  /** Moving a known non-positional name to the positional dictionary keeps the invariant. */
  lemma MovedValid(e: Edges, name: string, limb: Limb, list: seq<Limb>)
    requires Valid(e) && name in e.nonpos.m
    ensures Valid(e.(posList := list, pos := Put(e.pos, name, limb), nonpos := Remove(e.nonpos, name)))
  {
    PutValid(e.pos, name, limb);
    RemoveValid(e.nonpos, name);
  }

  /** Writing a known name into the positional dictionary keeps the invariant. */
  lemma KeptValid(e: Edges, name: string, limb: Limb, list: seq<Limb>)
    requires Valid(e) && name in e.all.m
    ensures Valid(e.(posList := list, pos := Put(e.pos, name, limb)))
  {
    PutValid(e.pos, name, limb);
  }

  /** One step of `_replace` on a limb. */
  function Swap(v: Limb, target: Limb, repl: Limb): Limb
  {
    if v == target then repl else v
  }

  function SwapAll(s: seq<Limb>, target: Limb, repl: Limb): (r: seq<Limb>)
    ensures |r| == |s|
    ensures forall i :: 0 <= i < |s| ==> r[i] == Swap(s[i], target, repl)
  {
    if s == [] then [] else [Swap(s[0], target, repl)] + SwapAll(s[1..], target, repl)
  }

  function SwapMap(m: map<string, Limb>, target: Limb, repl: Limb): (r: map<string, Limb>)
    ensures r.Keys == m.Keys
    ensures forall k :: k in m ==> r[k] == Swap(m[k], target, repl)
  {
    map k | k in m :: Swap(m[k], target, repl)
  }

  /** `_replace`: every occurrence of `old` in the keyword dictionary and the
      positional list becomes `new`; the other dictionaries are left as they
      are.  With no occurrence at all the call raises CriticalError. */
  function Replace(e: Edges, target: Limb, repl: Limb): (r: Result<Edges>)
    ensures r.Err? <==> target !in e.kw.m.Values && target !in e.posList
    ensures r.Err? ==> r.error == CriticalError
    ensures r.Ok? ==>
      r.value.kw.keys == e.kw.keys && r.value.kw.m.Keys == e.kw.m.Keys && r.value.pos == e.pos && r.value.nonpos == e.nonpos && r.value.all == e.all &&
      |r.value.posList| == |e.posList| &&
      (forall k :: k in e.kw.m ==> r.value.kw.m[k] == (if e.kw.m[k] == target then repl else e.kw.m[k])) &&
      (forall i :: 0 <= i < |e.posList| ==> r.value.posList[i] == (if e.posList[i] == target then repl else e.posList[i]))
  {
    if target !in e.kw.m.Values && target !in e.posList then Err(CriticalError)
    else Ok(e.(kw := ODict(e.kw.keys, SwapMap(e.kw.m, target, repl)), posList := SwapAll(e.posList, target, repl)))
  }

  lemma ReplaceKeepsValid(e: Edges, target: Limb, repl: Limb)
    requires Valid(e) && Replace(e, target, repl).Ok?
    ensures Valid(Replace(e, target, repl).value)
  {
  }

  /** A Python slice bound on `len` items, for a slice of negative step: a
      negative bound counts from the end, and the bound is then clamped to
      `[-1, len - 1]`, -1 standing for "before the first item"; None stands
      for `default`. */
  function DownBound(len: nat, b: Option<int>, default: int): (r: int)
    requires -1 <= default < len
    ensures -1 <= r < len
    ensures b.Some? && 0 <= b.value < len ==> r == b.value
    ensures b.Some? && b.value < 0 <= len + b.value ==> r == len + b.value
  {
    if b.None? then default
    else if b.value < 0 then (if b.value + len < 0 then -1 else b.value + len)
    else if b.value >= len then len - 1
    else b.value
  }

  /** Items `i, i + step, i + 2 * step, ...` of `s`, as long as they come
      before `stop` (positive step) or after it (negative step). */
  function Stride<T>(s: seq<T>, i: int, stop: int, step: int): (r: seq<T>)
    requires step != 0
    requires step > 0 ==> 0 <= i && stop <= |s|
    requires step < 0 ==> i < |s| && -1 <= stop
    ensures step > 0 ==> |r| <= (if i < stop then stop - i else 0)
    ensures step < 0 ==> |r| <= (if stop < i then i - stop else 0)
    ensures forall k :: 0 <= k < |r| ==> 0 <= i + k * step < |s| && r[k] == s[i + k * step]
    decreases if step > 0 then stop - i else i - stop
  {
    if (step > 0 && i < stop) || (step < 0 && stop < i) then [s[i]] + Stride(s, i + step, stop, step)
    else []
  }

  /** `s[start:stop:step]` as Python evaluates it, for a non-zero step
      (None is 1): the bounds are normalised for the direction of the step,
      and every `step`-th item from the start is taken up to, and excluding,
      the stop. */
  function PySlice<T>(s: seq<T>, start: Option<int>, stop: Option<int>, step: Option<int>): (r: seq<T>)
    requires step != Some(0)
    ensures |r| <= |s|
    ensures forall k :: 0 <= k < |r| ==> exists j :: 0 <= j < |s| && r[k] == s[j]
  {
    var jump := if step.None? then 1 else step.value;
    if jump > 0 then Stride(s, SliceBound(|s|, start, 0), SliceBound(|s|, stop, |s|), jump)
    else Stride(s, DownBound(|s|, start, |s| - 1), DownBound(|s|, stop, -1), jump)
  }

  /** A step of one takes a contiguous run of items, and a slice without a
      step is the same slice with step one. */
  lemma {:induction false} StrideOne<T>(s: seq<T>, i: nat, stop: nat)
    requires stop <= |s|
    ensures Stride(s, i, stop, 1) == if i < stop then s[i..stop] else []
    decreases stop - i
  {
    if i < stop {
      assert Stride(s, i, stop, 1) == [s[i]] + Stride(s, i + 1, stop, 1);
      StrideOne(s, i + 1, stop);
      assert s[i..stop] == [s[i]] + s[i + 1..stop];
    }
  }

  lemma UnitStep<T>(s: seq<T>, start: Option<int>, stop: Option<int>)
    ensures PySlice(s, start, stop, None) == PySlice(s, start, stop, Some(1))
    ensures var lo, hi := SliceBound(|s|, start, 0), SliceBound(|s|, stop, |s|);
            PySlice(s, start, stop, None) == if lo < hi then s[lo..hi] else []
    ensures start.None? && stop.None? ==> PySlice(s, start, stop, None) == s
  {
    StrideOne(s, SliceBound(|s|, start, 0), SliceBound(|s|, stop, |s|));
  }

  /** A step of minus one walks the items backwards: `[::-1]` is the list
      reversed. */
  lemma {:induction false} StrideBack<T>(s: seq<T>, i: int, stop: int)
    requires -1 <= stop <= i < |s|
    ensures |Stride(s, i, stop, -1)| == i - stop
    decreases i - stop
  {
    if stop < i {
      StrideBack(s, i - 1, stop);
    }
  }

  lemma Reversed<T>(s: seq<T>)
    ensures var r := PySlice(s, None, None, Some(-1));
            |r| == |s| && forall k :: 0 <= k < |s| ==> r[k] == s[|s| - 1 - k]
  {
    StrideBack(s, |s| - 1, -1);
  }

  /** Multiplying by a non-negative number keeps the order. */
  lemma {:induction false} MulLe(a: int, b: int, m: int)
    requires a <= b && m >= 0
    ensures a * m <= b * m
    decreases b - a
  {
    if a < b {
      MulLe(a + 1, b, m);
      assert (a + 1) * m == a * m + m;
    }
  }

  /** The quotient of a division is determined by its remainder's range. */
  lemma DivUnique(x: int, m: int, q: int)
    requires m > 0 && q * m <= x < q * m + m
    ensures x / m == q
  {
    var q' := x / m;
    assert q' * m <= x < q' * m + m;
    assert (q' + 1) * m == q' * m + m && (q + 1) * m == q * m + m;
    if q' < q {
      MulLe(q' + 1, q, m);
    } else if q' > q {
      MulLe(q + 1, q', m);
    }
  }

  /** Going `m` further takes one more step of length `m`. */
  lemma DivStep(x: int, m: int)
    requires m > 0
    ensures (x + m) / m == x / m + 1
  {
    var q := x / m;
    assert q * m <= x < q * m + m;
    DivUnique(x + m, m, q + 1);
  }

  /** The steps of length `m` a walk over distance `d` takes. */
  function Steps(d: int, m: nat): nat
    requires m > 0
    decreases d
  {
    if d > 0 then 1 + Steps(d - m, m) else 0
  }

  /** A walk over a positive distance takes the fewest steps of length `m`
      that cover it. */
  lemma {:induction false} StepsCover(d: int, m: nat)
    requires m > 0 && d > 0
    ensures (Steps(d, m) - 1) * m < d <= Steps(d, m) * m
    decreases d
  {
    var n := Steps(d - m, m);
    if d - m > 0 {
      StepsCover(d - m, m);
    }
    assert (n + 1) * m == n * m + m;
  }

  lemma {:induction false} StrideCount<T>(s: seq<T>, i: int, stop: int, step: int)
    requires step != 0
    requires step > 0 ==> 0 <= i && stop <= |s|
    requires step < 0 ==> i < |s| && -1 <= stop
    ensures |Stride(s, i, stop, step)| == Steps(if step > 0 then stop - i else i - stop, if step > 0 then step else -step)
    decreases if step > 0 then stop - i else i - stop
  {
    if (step > 0 && i < stop) || (step < 0 && stop < i) {
      StrideCount(s, i + step, stop, step);
    }
  }

  /** The steps over a positive distance are its ceiling quotient. */
  lemma StepsDiv(d: int, m: nat)
    requires m > 0 && d > 0
    ensures Steps(d, m) == (d + m - 1) / m
  {
    StepsCover(d, m);
    var n := Steps(d, m);
    assert (n - 1) * m == n * m - m;
    DivUnique(d + m - 1, m, n);
  }

  /** The number of items a walk takes: `ceil(distance / |step|)`, as
      `len(range(i, stop, step))` counts them. */
  lemma StrideLength<T>(s: seq<T>, i: int, stop: int, step: int)
    requires step != 0
    requires step > 0 ==> 0 <= i && stop <= |s|
    requires step < 0 ==> i < |s| && -1 <= stop
    ensures step > 0 && i < stop ==> |Stride(s, i, stop, step)| == (stop - i + step - 1) / step
    ensures step < 0 && stop < i ==> |Stride(s, i, stop, step)| == (i - stop - step - 1) / -step
  {
    StrideCount(s, i, stop, step);
    if step > 0 && i < stop {
      StepsDiv(stop - i, step);
    } else if step < 0 && stop < i {
      StepsDiv(i - stop, -step);
    }
  }

  /** `s[start:stop:step]` takes the items from the normalised start, every
      `step`-th one in the direction of the step, and as many as
      `len(range(lo, hi, step))` over the normalised bounds. */
  lemma SliceItems<T>(s: seq<T>, start: Option<int>, stop: Option<int>, step: int)
    requires step != 0
    ensures var r := PySlice(s, start, stop, Some(step));
            var lo := if step > 0 then SliceBound(|s|, start, 0) else DownBound(|s|, start, |s| - 1);
            var hi := if step > 0 then SliceBound(|s|, stop, |s|) else DownBound(|s|, stop, -1);
            |r| == (if step > 0 && lo < hi then (hi - lo + step - 1) / step
                    else if step < 0 && hi < lo then (lo - hi - step - 1) / -step
                    else 0) &&
            forall k :: 0 <= k < |r| ==> r[k] == s[lo + k * step]
  {
    if step > 0 {
      StrideLength(s, SliceBound(|s|, start, 0), SliceBound(|s|, stop, |s|), step);
    } else {
      StrideLength(s, DownBound(|s|, start, |s| - 1), DownBound(|s|, stop, -1), step);
    }
  }

  /** `[::2]` of five items takes the first, third and fifth; `[3::-2]` of
      them takes the fourth and the second. */
  lemma SliceExamples()
    ensures PySlice([0, 1, 2, 3, 4], None, None, Some(2)) == [0, 2, 4]
    ensures PySlice([0, 1, 2, 3, 4], Some(3), None, Some(-2)) == [3, 1]
  {
    SliceItems([0, 1, 2, 3, 4], None, None, 2);
    SliceItems([0, 1, 2, 3, 4], Some(3), None, -2);
  }

  /** The keys `__getitem__`, `get` and `iter` accept.  `Other` stands for
      any value that is neither a str, an int, a slice nor a sequence. */
  datatype Key = KStr(s: string) | KInt(i: int) | KSlice(start: Option<int>, stop: Option<int>, step: Option<int>) | KSeq(keys: seq<Key>) | KOther

  function KeySize(k: Key): nat
  {
    if k.KSeq? then 1 + KeysSize(k.keys) else 1
  }

  function KeysSize(ks: seq<Key>): nat
  {
    if ks == [] then 0 else KeySize(ks[0]) + KeysSize(ks[1..]) + 1
  }

  /** What `__getitem__` returns: one stored limb, the list a slice gives, or
      the tuple a sequence key gives. */
  datatype Item = One(limb: Limb) | Many(items: seq<Item>)

  function Ones(s: seq<Limb>): (r: seq<Item>)
    ensures |r| == |s| && forall i :: 0 <= i < |s| ==> r[i] == One(s[i])
  {
    if s == [] then [] else [One(s[0])] + Ones(s[1..])
  }

  /** `__getitem__`: str keys look up the keyword dictionary, ints and slices
      the positional list, a sequence of keys gives a tuple of lookups; any
      other key raises TypeError. */
  function GetItem(e: Edges, key: Key): (r: Result<Item>)
    decreases KeySize(key)
    ensures key.KStr? ==> (r.Ok? <==> key.s in e.kw.m) && (r.Ok? ==> r.value == One(e.kw.m[key.s]))
    ensures key.KStr? && r.Err? ==> r.error == KeyError
    ensures key.KInt? ==> (r.Ok? <==> -|e.posList| <= key.i < |e.posList|)
    ensures key.KInt? && 0 <= key.i < |e.posList| ==> r == Ok(One(e.posList[key.i]))
    ensures key.KInt? && r.Err? ==> r.error == IndexError
    ensures key.KSlice? ==> (r.Ok? <==> key.step != Some(0))
    ensures key.KSlice? && key.step != Some(0) ==> r == Ok(Many(Ones(PySlice(e.posList, key.start, key.stop, key.step))))
    ensures key.KSlice? && r.Err? ==> r.error == ValueError
    ensures key.KSeq? && r.Ok? ==> r.value.Many? && |r.value.items| == |key.keys|
    ensures key.KOther? ==> r == Err(TypeError)
  {
    match key
    case KStr(s) => if s in e.kw.m then Ok(One(e.kw.m[s])) else Err(KeyError)
    case KInt(i) =>
      if 0 <= i < |e.posList| then Ok(One(e.posList[i]))
      else if -|e.posList| <= i < 0 then Ok(One(e.posList[i + |e.posList|]))
      else Err(IndexError)
    case KSlice(start, stop, step) =>
      if step == Some(0) then Err(ValueError) else Ok(Many(Ones(PySlice(e.posList, start, stop, step))))
    case KSeq(keys) =>
      var items :- GetEach(e, keys);
      Ok(Many(items))
    case KOther => Err(TypeError)
  }
  /** `len` is `len_pos`: the non-negative int keys that index the
      container are exactly those below it, and `[:]` gives that many
      items, the positional list in order. */
  lemma LenPosCounts(e: Edges)
    ensures forall i: int :: GetItem(e, KInt(i)).Ok? <==> 0 <= i + LenPos(e) && i < LenPos(e)
    ensures GetItem(e, KSlice(None, None, None)) == Ok(Many(Ones(e.posList)))
    ensures |Ones(e.posList)| == LenPos(e)
  {
    forall i: int
      ensures GetItem(e, KInt(i)).Ok? <==> 0 <= i + LenPos(e) && i < LenPos(e)
    {
    }
    assert GetItem(e, KSlice(None, None, None)) == Ok(Many(Ones(PySlice(e.posList, None, None, None))));
    UnitStep(e.posList, None, None);
  }


  function GetEach(e: Edges, keys: seq<Key>): (r: Result<seq<Item>>)
    ensures r.Ok? ==> |r.value| == |keys|
    decreases KeysSize(keys)
  {
    if keys == [] then Ok([])
    else
      var first :- GetItem(e, keys[0]);
      var rest :- GetEach(e, keys[1..]);
      Ok([first] + rest)
  }

  /** `get`: a failed lookup, whatever its kind, gives the default. */
  function Get(e: Edges, key: Key, default: Item): (r: Item)
    ensures GetItem(e, key).Ok? ==> r == GetItem(e, key).value
    ensures GetItem(e, key).Err? ==> r == default
  {
    match GetItem(e, key)
    case Ok(v) => v
    case Err(_) => default
  }

  /** `key`: the first keyword name (in insertion order) whose item is `arg`;
      ValueError when there is none. */
  function KeyOf(e: Edges, arg: Limb): (r: Result<string>)
    requires ValidDict(e.kw)
    ensures r.Ok? <==> arg in e.kw.m.Values
    ensures r.Ok? ==> r.value in e.kw.m && e.kw.m[r.value] == arg
    ensures r.Ok? ==> exists j :: 0 <= j < |e.kw.keys| && e.kw.keys[j] == r.value &&
                        forall i :: 0 <= i < j ==> e.kw.m[e.kw.keys[i]] != arg
    ensures r.Err? ==> r.error == ValueError
  {
    FirstKey(e.kw.keys, e.kw.m, arg)
  }

  /** The search of `key` over the names in insertion order: the name found
      is the first one holding `arg`. */
  function FirstKey(keys: seq<string>, m: map<string, Limb>, arg: Limb): (r: Result<string>)
    requires forall k :: k in keys ==> k in m
    ensures r.Ok? ==> r.value in keys && m[r.value] == arg
    ensures r.Ok? <==> exists k :: k in keys && m[k] == arg
    ensures r.Ok? ==> exists j :: 0 <= j < |keys| && keys[j] == r.value &&
                        forall i :: 0 <= i < j ==> m[keys[i]] != arg
    ensures r.Err? ==> r.error == ValueError
  {
    if keys == [] then Err(ValueError)
    else if m[keys[0]] == arg then Ok(keys[0])
    else
      var rest := FirstKey(keys[1..], m, arg);
      if rest.Ok? then
        var j :| 0 <= j < |keys[1..]| && keys[1..][j] == rest.value &&
                  forall i :: 0 <= i < j ==> m[keys[1..][i]] != arg;
        assert keys[j + 1] == rest.value;
        assert forall i :: 0 <= i < j + 1 ==> m[keys[i]] != arg by {
          forall i | 0 <= i < j + 1 ensures m[keys[i]] != arg {
            if i > 0 { assert keys[i] == keys[1..][i - 1]; }
          }
        }
        rest
      else rest
  }

  lemma KeyOfWhenPresent(e: Edges, arg: Limb)
    requires ValidDict(e.kw)
    ensures KeyOf(e, arg).Ok? <==> exists k :: k in e.kw.keys && e.kw.m[k] == arg
  {
  }

  /** `index`: the position of the first occurrence in the positional list. */
  function IndexOf(e: Edges, arg: Limb): (r: Result<nat>)
    ensures r.Ok? <==> arg in e.posList
    ensures r.Ok? ==> r.value < |e.posList| && e.posList[r.value] == arg
    ensures r.Ok? ==> forall j :: 0 <= j < r.value ==> e.posList[j] != arg
    ensures r.Err? ==> r.error == ValueError
  {
    FirstIndex(e.posList, arg)
  }

  function FirstIndex(s: seq<Limb>, arg: Limb): (r: Result<nat>)
    ensures r.Ok? <==> arg in s
    ensures r.Ok? ==> r.value < |s| && s[r.value] == arg && forall j :: 0 <= j < r.value ==> s[j] != arg
    ensures r.Err? ==> r.error == ValueError
  {
    if s == [] then Err(ValueError)
    else if s[0] == arg then Ok(0)
    else match FirstIndex(s[1..], arg)
      case Ok(k) => Ok(k + 1)
      case Err(err) => Err(err)
  }

  /** `iter(key, include_kw, exclude_pos)`, with everything it yields collected. */
  function Iter(e: Edges, key: Key, includeKw: bool, excludePos: bool): (r: Result<seq<Limb>>)
    requires Valid(e)
    ensures !includeKw && excludePos ==> r == Err(RuntimeError)
    ensures key == KSlice(None, None, None) && !includeKw && !excludePos ==> r == Ok(e.posList)
    ensures key == KSlice(None, None, None) && includeKw && !excludePos ==> r == Ok(Values(e.all))
    ensures key == KSlice(None, None, None) && includeKw && excludePos ==> r == Ok(Values(e.nonpos))
    ensures key.KSlice? && key != KSlice(None, None, None) && (includeKw || !excludePos) ==>
              if key.step == Some(0) then r == Err(ValueError) else r == Ok(PySlice(e.posList, key.start, key.stop, key.step))
    ensures key.KOther? && (includeKw || !excludePos) ==> r == Err(CriticalError)
  {
    if !includeKw && excludePos then Err(RuntimeError)
    else match key
      case KInt(i) =>
        if 0 <= i < |e.posList| then Ok([e.posList[i]])
        else if -|e.posList| <= i < 0 then Ok([e.posList[i + |e.posList|]])
        else Err(IndexError)
      case KStr(s) => if s in e.kw.m then Ok([e.kw.m[s]]) else Err(KeyError)
      case KSlice(start, stop, step) =>
        if start.None? && stop.None? && step.None? then
          (if includeKw then (if excludePos then Ok(Values(e.nonpos)) else Ok(Values(e.all)))
           else Ok(e.posList))
        else if step == Some(0) then Err(ValueError)
        else Ok(PySlice(e.posList, start, stop, step))
      case KSeq(keys) => IterSub(e, keys)
      case KOther => Err(CriticalError)
  }

  function IterSub(e: Edges, keys: seq<Key>): (r: Result<seq<Limb>>)
    ensures r.Err? ==> r.error == IndexError || r.error == KeyError || r.error == ValueError || r.error == CriticalError
    ensures r.Ok? ==> forall x :: x in r.value ==> x in e.posList || x in e.kw.m.Values
  {
    if keys == [] then Ok([])
    else
      var first :- match keys[0]
        case KInt(i) =>
          if 0 <= i < |e.posList| then Ok([e.posList[i]])
          else if -|e.posList| <= i < 0 then Ok([e.posList[i + |e.posList|]])
          else Err(IndexError)
        case KStr(s) => if s in e.kw.m then Ok([e.kw.m[s]]) else Err(KeyError)
        case KSlice(start, stop, step) => if step == Some(0) then Err(ValueError) else Ok(PySlice(e.posList, start, stop, step))
        case _ => Err(CriticalError);
      var rest :- IterSub(e, keys[1..]);
      Ok(first + rest)
  }

}
