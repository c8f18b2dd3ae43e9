/** Node labels (dagflow/core/labels.py): text substitutions, the
    conversion of LaTeX titles to ROOT's markup, selection masks over the
    index a label carries, merging of label lists in nested label
    dictionaries, the index dictionary built from a label's path, and the
    defaults of a label's text attributes. */
module Labels {
  import opened Base
  import Strings

  // ---------------------------------------------------------------------
  // Substitutions

  /** The substitution of the first pattern equal to the whole of `s`. */
  function FirstMatch(s: string, subs: seq<(string, string)>): (r: Option<string>)
    ensures r.None? <==> forall i :: 0 <= i < |subs| ==> subs[i].0 != s
    ensures r.Some? ==> exists i :: 0 <= i < |subs| && subs[i].0 == s && r.value == subs[i].1 &&
                                    forall j :: 0 <= j < i ==> subs[j].0 != s
  {
    if subs == [] then None
    else if subs[0].0 == s then Some(subs[0].1)
    else
      var r := FirstMatch(s, subs[1..]);
      assert forall i :: 1 <= i < |subs| ==> subs[i] == subs[1..][i - 1];
      r
  }

  /** Every pattern replaced in turn, each acting on the result of the
      previous one. */
  function ReplaceEach(s: string, subs: seq<(string, string)>): string
    decreases |subs|
  {
    if subs == [] then s else ReplaceEach(Strings.Replace(s, subs[0].0, subs[0].1), subs[1..])
  }

  /** `apply_substitutions(s, substitutions, full_string=...)`. */
  function Substituted(s: string, subs: seq<(string, string)>, fullString: bool): (r: string)
    ensures |subs| == 0 || s == [] ==> r == s
    ensures fullString && (forall i :: 0 <= i < |subs| ==> subs[i].0 != s) ==> r == s
    ensures fullString ==> r == s || exists i :: 0 <= i < |subs| && subs[i].0 == s && r == subs[i].1
  {
    if |subs| == 0 || s == [] then s
    else if fullString then
      match FirstMatch(s, subs)
      case Some(t) => t
      case None => s
    else ReplaceEach(s, subs)
  }

  /** `apply_substitutions`, with its loops. */
  method ApplySubstitutions(s: string, subs: seq<(string, string)>, fullString: bool) returns (r: string)
    ensures r == Substituted(s, subs, fullString)
    ensures |subs| == 0 || s == [] ==> r == s
  {
    if |subs| == 0 || s == [] {
      return s;
    }
    if fullString {
      for i := 0 to |subs|
        invariant forall j :: 0 <= j < i ==> subs[j].0 != s
      {
        if s == subs[i].0 {
          return subs[i].1;
        }
      }
      return s;
    }
    r := s;
    for i := 0 to |subs|
      invariant ReplaceEach(r, subs[i..]) == ReplaceEach(s, subs)
    {
      assert subs[i..][1..] == subs[i + 1..];
      r := Strings.Replace(r, subs[i].0, subs[i].1);
    }
  }

  /** Patterns that occur nowhere leave the text unchanged: none of the
      replacements creates an occurrence for a later one. */
  lemma {:induction false} AbsentPatternsChangeNothing(s: string, subs: seq<(string, string)>)
    requires forall i :: 0 <= i < |subs| ==> |subs[i].0| > 0
    requires forall i, k: nat :: 0 <= i < |subs| ==> !Strings.OccursAt(s, subs[i].0, k)
    ensures ReplaceEach(s, subs) == s
    ensures Substituted(s, subs, false) == s
  {
    if subs != [] {
      Strings.ReplaceAbsent(s, subs[0].0, subs[0].1);
      assert forall i :: 0 <= i < |subs[1..]| ==> subs[1..][i] == subs[i + 1];
      AbsentPatternsChangeNothing(s, subs[1..]);
    }
  }

  /** Substituting every pattern by itself changes nothing, in either mode. */
  lemma {:induction false} IdentitySubstitutions(s: string, subs: seq<(string, string)>, fullString: bool)
    requires forall i :: 0 <= i < |subs| ==> subs[i].0 == subs[i].1
    ensures ReplaceEach(s, subs) == s
    ensures Substituted(s, subs, fullString) == s
  {
    if subs != [] {
      Strings.ReplaceSelf(s, subs[0].0);
      assert forall i :: 0 <= i < |subs[1..]| ==> subs[1..][i] == subs[i + 1];
      IdentitySubstitutions(s, subs[1..], fullString);
    }
  }

  // ---------------------------------------------------------------------
  // ROOT titles

  /** `_latex_to_root`: `\rm ` dropped, `\overline` made `\bar`, `\\` made
      ` | `, any other backslash made `#`, dollar signs dropped; an absent or
      empty text is returned as it is. */
  function LatexToRoot(text: Option<string>): (r: Option<string>)
    ensures text.None? || text.value == [] ==> r == text
    ensures r.Some? <==> text.Some?
  {
    if text.None? || text.value == [] then text
    else
      var a := Strings.Replace(text.value, "\\rm ", "");
      var b := Strings.Replace(a, "\\overline", "\\bar");
      var c := Strings.Replace(b, "\\\\", " | ");
      var d := Strings.Replace(c, "\\", "#");
      Some(Strings.Replace(d, "$", ""))
  }

  /** A converted title carries no backslash and no dollar sign. */
  lemma RootTitleHasNoLatex(text: string)
    requires text != []
    ensures '\\' !in LatexToRoot(Some(text)).value
    ensures '$' !in LatexToRoot(Some(text)).value
  {
    var a := Strings.Replace(text, "\\rm ", "");
    var b := Strings.Replace(a, "\\overline", "\\bar");
    var c := Strings.Replace(b, "\\\\", " | ");
    var d := Strings.Replace(c, "\\", "#");
    Strings.ReplaceRemoves(c, '\\', "#");
    Strings.ReplaceKeepsOut(d, "$", "", '\\');
    Strings.ReplaceRemoves(d, '$', "");
  }

  // ---------------------------------------------------------------------
  // Masks

  /** An item of a container criterion: a value name or a position. */
  datatype Key = KText(t: string) | KNum(n: int)

  /** What a mask accepts for one category: one string, a number (which
      is not a container), or a container of keys. */
  datatype Criterion = Text(t: string) | Number(n: int) | Among(keys: seq<Key>)

  /** The index entry of a category: the value and its position. */
  type Entry = (string, nat)

  /** Whether a criterion accepts an entry.  A string is compared with the
      value and with the position, and a position never equals a string; a
      container must hold the value or the position. */
  predicate Accepts(e: Entry, c: Criterion)
    requires !c.Number?
  {
    match c
    case Text(t) => e.0 == t
    case Among(keys) => KText(e.0) in keys || KNum(e.1) in keys
  }

  /** The verdict on the mask's categories taken in order: the first
      category present in the index whose criterion is a number raises
      TypeError, the first whose criterion rejects gives false. */
  function Verdict(index: map<string, Entry>, mask: seq<(string, Criterion)>): Result<bool>
  {
    if mask == [] then Ok(true)
    else if mask[0].0 !in index then Verdict(index, mask[1..])
    else if mask[0].1.Number? then Err(TypeError)
    else if !Accepts(index[mask[0].0], mask[0].1) then Ok(false)
    else Verdict(index, mask[1..])
  }

  /** `index_in_mask`: no mask accepts everything. */
  function MaskVerdict(index: map<string, Entry>, mask: Option<seq<(string, Criterion)>>): Result<bool>
  {
    if mask.None? then Ok(true) else Verdict(index, mask.value)
  }

  /** A category counts only when the index has it; the mask accepts iff
      every such category's criterion accepts its entry, it rejects only
      for a category whose criterion rejects, and it raises only for a
      category whose criterion is a number. */
  lemma {:induction false} VerdictMeaning(index: map<string, Entry>, mask: seq<(string, Criterion)>)
    ensures Verdict(index, mask) == Ok(true) <==>
              forall i :: 0 <= i < |mask| && mask[i].0 in index ==>
                !mask[i].1.Number? && Accepts(index[mask[i].0], mask[i].1)
    ensures Verdict(index, mask) == Ok(false) ==>
              exists i :: 0 <= i < |mask| && mask[i].0 in index && !mask[i].1.Number? &&
                          !Accepts(index[mask[i].0], mask[i].1)
    ensures Verdict(index, mask).Err? ==>
              Verdict(index, mask).error == TypeError &&
              exists i :: 0 <= i < |mask| && mask[i].0 in index && mask[i].1.Number?
  {
    if mask != [] {
      VerdictMeaning(index, mask[1..]);
      assert forall i :: 1 <= i < |mask| ==> mask[i] == mask[1..][i - 1];
    }
  }

  // ---------------------------------------------------------------------
  // Merging label lists

  /** A value in a nested label dictionary: a dictionary (items in
      insertion order), a list of names, or any other value. */
  datatype Val = Dict(items: seq<(string, Val)>) | Names(names: seq<string>) | Other

  /** The list `patch` builds: `acc`, then each name of `old` not yet in it. */
  function MergeFrom(acc: seq<string>, prev: seq<string>): seq<string>
    decreases |prev|
  {
    if prev == [] then acc
    else MergeFrom(if prev[0] in acc then acc else acc + [prev[0]], prev[1..])
  }

  /** The names in `s` occur once each. */
  predicate Distinct(s: seq<string>)
  {
    forall i, j :: 0 <= i < j < |s| ==> s[i] != s[j]
  }

  /** The merged list is `lst` followed by a tail of distinct names, each
      from `old` and none in `lst`, and every name of `old` ends up in it. */
  lemma {:induction false} MergeShape(acc: seq<string>, prev: seq<string>)
    ensures |MergeFrom(acc, prev)| >= |acc| && MergeFrom(acc, prev)[..|acc|] == acc
    ensures forall x :: x in prev ==> x in MergeFrom(acc, prev)
    ensures forall k :: |acc| <= k < |MergeFrom(acc, prev)| ==>
              MergeFrom(acc, prev)[k] in prev && MergeFrom(acc, prev)[k] !in MergeFrom(acc, prev)[..k]
    ensures Distinct(acc) ==> Distinct(MergeFrom(acc, prev))
    decreases |prev|
  {
    if prev != [] {
      var next := if prev[0] in acc then acc else acc + [prev[0]];
      MergeShape(next, prev[1..]);
      var r := MergeFrom(acc, prev);
      assert r[..|next|] == next;
      assert r[..|acc|] == next[..|acc|];
      forall x | x in prev ensures x in r {
        if x != prev[0] {
          assert x in prev[1..];
        } else {
          assert x in next;
          assert x in r[..|next|];
        }
      }
      forall k | |acc| <= k < |r| ensures r[k] in prev && r[k] !in r[..k] {
        if k >= |next| {
          assert r[k] in prev[1..];
        } else {
          assert k == |acc| && next == acc + [prev[0]];
          assert r[..k] == acc;
        }
      }
      if Distinct(acc) {
        assert Distinct(next);
      }
    }
  }

  /** `patch`'s loop, appending the names of `old` missing from `lst`. */
  method MergeNames(lst: seq<string>, prev: seq<string>) returns (r: seq<string>)
    ensures r == MergeFrom(lst, prev)
  {
    r := lst;
    for i := 0 to |prev|
      invariant MergeFrom(r, prev[i..]) == MergeFrom(lst, prev)
    {
      assert prev[i..][1..] == prev[i + 1..];
      if prev[i] !in r {
        r := r + [prev[i]];
      }
    }
  }

  /** Merging the same list twice gives what merging once gave. */
  lemma MergeIdempotent(lst: seq<string>, prev: seq<string>)
    ensures MergeFrom(lst, MergeFrom(lst, prev)) == MergeFrom(lst, prev)
  {
    var m := MergeFrom(lst, prev);
    MergeShape(lst, prev);
    assert m == lst + m[|lst|..];
    MergeAllPresent(lst, lst);
    MergeSplit(lst, lst, m[|lst|..]);
    MergeFresh(lst, m[|lst|..]);
  }

  lemma {:induction false} MergeAllPresent(acc: seq<string>, xs: seq<string>)
    requires forall x :: x in xs ==> x in acc
    ensures MergeFrom(acc, xs) == acc
    decreases |xs|
  {
    if xs != [] {
      MergeAllPresent(acc, xs[1..]);
    }
  }

  lemma {:induction false} MergeSplit(acc: seq<string>, a: seq<string>, b: seq<string>)
    ensures MergeFrom(acc, a + b) == MergeFrom(MergeFrom(acc, a), b)
    decreases |a|
  {
    if a != [] {
      assert (a + b)[1..] == a[1..] + b;
      MergeSplit(if a[0] in acc then acc else acc + [a[0]], a[1..], b);
    } else {
      assert a + b == b;
    }
  }

  /** Names absent from `acc`, each after no earlier copy of itself, are
      appended as they come. */
  lemma {:induction false} MergeFresh(acc: seq<string>, t: seq<string>)
    requires forall k :: 0 <= k < |t| ==> t[k] !in acc && t[k] !in t[..k]
    ensures MergeFrom(acc, t) == acc + t
    decreases |t|
  {
    if t != [] {
      assert t[0] !in acc;
      forall k | 0 <= k < |t[1..]| ensures t[1..][k] !in acc + [t[0]] && t[1..][k] !in t[1..][..k] {
        assert t[1..][k] == t[k + 1];
        assert t[..k + 1] == [t[0]] + t[1..][..k];
      }
      MergeFresh(acc + [t[0]], t[1..]);
      assert acc + [t[0]] + t[1..] == acc + t;
    }
  }

  /** The value stored under `k`, the first item with that key. */
  function Lookup(items: seq<(string, Val)>, k: string): (r: Option<Val>)
    ensures r.None? <==> forall i :: 0 <= i < |items| ==> items[i].0 != k
    ensures r.Some? ==> exists i :: 0 <= i < |items| && items[i] == (k, r.value)
  {
    if items == [] then None
    else if items[0].0 == k then Some(items[0].1)
    else
      var r := Lookup(items[1..], k);
      assert forall i :: 1 <= i < |items| ==> items[i] == items[1..][i - 1];
      r
  }

  /** `d[k] = x`: an existing key keeps its place, a new one goes last. */
  function Store(items: seq<(string, Val)>, k: string, x: Val): (r: seq<(string, Val)>)
    ensures Lookup(r, k) == Some(x)
    ensures forall j :: j != k ==> Lookup(r, j) == Lookup(items, j)
    ensures forall i :: 0 <= i < |r| ==> r[i] in items || r[i] == (k, x)
  {
    if items == [] then [(k, x)]
    else if items[0].0 == k then [(k, x)] + items[1..]
    else [items[0]] + Store(items[1..], k, x)
  }

  /** Storing the same value twice is storing it once. */
  lemma {:induction false} StoreTwice(items: seq<(string, Val)>, k: string, x: Val)
    ensures Store(Store(items, k, x), k, x) == Store(items, k, x)
  {
    if items != [] && items[0].0 != k {
      StoreTwice(items[1..], k, x);
    }
  }

  /** The dictionary holds a dictionary among its values. */
  predicate HasSubdict(items: seq<(string, Val)>)
  {
    exists i :: 0 <= i < |items| && items[i].1.Dict?
  }

  /** The list under `key` before patching: none counts as empty. */
  function Prev(items: seq<(string, Val)>, key: string): seq<string>
  {
    match Lookup(items, key)
    case Some(Names(l)) => l
    case _ => []
  }

  /** `patch` on a dictionary without sub-dictionaries: the list under
      `key` becomes `lst` merged with the previous one; a value there that
      is not a list cannot be iterated and raises TypeError. */
  function Patch(items: seq<(string, Val)>, key: string, lst: seq<string>): (r: (seq<(string, Val)>, Outcome))
    ensures r.1.Pass? <==> Lookup(items, key).None? || Lookup(items, key).value.Names?
    ensures r.1.Fail? ==> r == (items, Fail(TypeError))
    ensures r.1.Pass? ==> Lookup(r.0, key) == Some(Names(MergeFrom(lst, Prev(items, key))))
    ensures forall j :: j != key ==> Lookup(r.0, j) == Lookup(items, j)
    ensures !HasSubdict(items) ==> !HasSubdict(r.0)
  {
    match Lookup(items, key)
    case Some(Dict(_)) => (items, Fail(TypeError))
    case Some(Other) => (items, Fail(TypeError))
    case _ => (Store(items, key, Names(MergeFrom(lst, Prev(items, key)))), Pass)
  }

  /** Two item lists with the same keys in the same order, dictionaries in
      the same places, and the same values everywhere else. */
  predicate SameLayout(a: seq<(string, Val)>, b: seq<(string, Val)>)
  {
    |a| == |b| &&
    forall k :: 0 <= k < |a| ==>
      a[k].0 == b[k].0 && (a[k].1.Dict? <==> b[k].1.Dict?) && (!a[k].1.Dict? ==> b[k].1 == a[k].1)
  }

  /** `mapping_append_lists(dct, key, lst)` on a value: anything but a
      dictionary is left alone; a dictionary with sub-dictionaries passes
      the call on to each of them, in order, and is not patched itself; a
      dictionary without any is patched.  The first failure stops the walk,
      leaving what was already patched. */
  function AppendLists(v: Val, key: string, lst: seq<string>): (r: (Val, Outcome))
    ensures !v.Dict? ==> r == (v, Pass)
    ensures v.Dict? ==> r.0.Dict?
    ensures v.Dict? && HasSubdict(v.items) ==> SameLayout(v.items, r.0.items)
    ensures v.Dict? && !HasSubdict(v.items) && r.1.Pass? ==>
              Lookup(r.0.items, key) == Some(Names(MergeFrom(lst, Prev(v.items, key))))
    decreases v, 1
  {
    match v
    case Dict(items) =>
      if HasSubdict(items) then
        var (rest, o) := AppendListsFrom(v, 0, key, lst);
        assert v.items[0..] == v.items;
        (Dict(rest), o)
      else
        var (patched, o) := Patch(items, key, lst);
        (Dict(patched), o)
    case _ => (v, Pass)
  }

  /** The walk over the items of dictionary `v` from the `i`-th on. */
  function AppendListsFrom(v: Val, i: nat, key: string, lst: seq<string>): (r: (seq<(string, Val)>, Outcome))
    requires v.Dict? && i <= |v.items|
    ensures SameLayout(v.items[i..], r.0)
    decreases v, 0, |v.items| - i
  {
    if i == |v.items| then ([], Pass)
    else
      var (k, x) := v.items[i];
      assert v.items[i..] == [v.items[i]] + v.items[i + 1..];
      if x.Dict? then
        var (x2, o) := AppendLists(x, key, lst);
        if o.Fail? then ([(k, x2)] + v.items[i + 1..], o)
        else
          var (rest, o2) := AppendListsFrom(v, i + 1, key, lst);
          ([(k, x2)] + rest, o2)
      else
        var (rest, o2) := AppendListsFrom(v, i + 1, key, lst);
        ([(k, x)] + rest, o2)
  }

  /** A second call with the same list changes nothing after a first one
      that succeeded. */
  lemma {:induction false} AppendListsTwice(v: Val, key: string, lst: seq<string>)
    requires AppendLists(v, key, lst).1.Pass?
    ensures AppendLists(AppendLists(v, key, lst).0, key, lst) == AppendLists(v, key, lst)
    decreases v, 1
  {
    if v.Dict? {
      var w := AppendLists(v, key, lst).0;
      if HasSubdict(v.items) {
        assert v.items[0..] == v.items;
        var i :| 0 <= i < |v.items| && v.items[i].1.Dict?;
        assert w.items[i].1.Dict?;
        assert w.items[0..] == w.items;
        AppendListsFromTwice(v, w, 0, key, lst);
      } else {
        var m := MergeFrom(lst, Prev(v.items, key));
        MergeIdempotent(lst, Prev(v.items, key));
        StoreTwice(v.items, key, Names(m));
      }
    }
  }

  lemma {:induction false} AppendListsFromTwice(v: Val, w: Val, i: nat, key: string, lst: seq<string>)
    requires v.Dict? && w.Dict? && i <= |v.items| && i <= |w.items|
    requires w.items[i..] == AppendListsFrom(v, i, key, lst).0
    requires AppendListsFrom(v, i, key, lst).1.Pass?
    ensures AppendListsFrom(w, i, key, lst) == AppendListsFrom(v, i, key, lst)
    decreases v, 0, |v.items| - i
  {
    if i < |v.items| {
      var (k, x) := v.items[i];
      var r := AppendListsFrom(v, i, key, lst);
      assert w.items[i] == w.items[i..][0] == r.0[0];
      assert w.items[i + 1..] == w.items[i..][1..];
      if x.Dict? {
        var (x2, o) := AppendLists(x, key, lst);
        assert o.Pass?;
        AppendListsTwice(x, key, lst);
        AppendListsFromTwice(v, w, i + 1, key, lst);
      } else {
        AppendListsFromTwice(v, w, i + 1, key, lst);
      }
    }
  }

  // ---------------------------------------------------------------------
  // The index dictionary

  /** `list.index`: the first position of `v`, if any. */
  function IndexOf(s: seq<string>, v: string): (r: Option<nat>)
    ensures r.None? <==> v !in s
    ensures r.Some? ==> r.value < |s| && s[r.value] == v && v !in s[..r.value]
  {
    if s == [] then None
    else if s[0] == v then Some(0)
    else
      match IndexOf(s[1..], v)
      case None => None
      case Some(p) =>
        assert s[..p + 1] == [s[0]] + s[1..][..p];
        Some(p + 1)
  }

  /** The categories of an index, in order, with their possible values. */
  type Index = seq<(string, seq<string>)>

  /** The first category whose values hold `v`, with `v`'s position there. */
  function Found(index: Index, v: string): (r: Option<Entry>)
    ensures r.None? <==> forall i :: 0 <= i < |index| ==> v !in index[i].1
    ensures r.Some? ==> exists i :: 0 <= i < |index| && index[i].0 == r.value.0 &&
                                    IndexOf(index[i].1, v) == Some(r.value.1)
  {
    if index == [] then None
    else
      match IndexOf(index[0].1, v)
      case Some(p) => Some((index[0].0, p))
      case None =>
        var r := Found(index[1..], v);
        assert forall i :: 1 <= i < |index| ==> index[i] == index[1..][i - 1];
        r
  }

  /** The entries recorded for `vs`, in order: a later value of a category
      replaces an earlier one. */
  function Indexed(index: Index, vs: seq<string>): (r: map<string, Entry>)
    ensures forall c :: c in r ==> r[c].0 in vs && Found(index, r[c].0) == Some((c, r[c].1))
  {
    if vs == [] then map[]
    else
      var d := Indexed(index, vs[..|vs| - 1]);
      match Found(index, vs[|vs| - 1])
      case Some((c, p)) => d[c := (vs[|vs| - 1], p)]
      case None => d
  }

  /** One more value records its entry, when found, over the earlier ones. */
  lemma IndexedAppend(index: Index, vs: seq<string>, v: string)
    ensures Indexed(index, vs + [v]) ==
              match Found(index, v)
              case Some(e) => Indexed(index, vs)[e.0 := (v, e.1)]
              case None => Indexed(index, vs)
  {
    var t := vs + [v];
    assert t[..|t| - 1] == vs && t[|t| - 1] == v;
  }

  /** The values of `vs` that are found (`found`) or not found in the index,
      in order. */
  function Sift(index: Index, vs: seq<string>, found: bool): (r: seq<string>)
    ensures |r| <= |vs|
    ensures forall k :: 0 <= k < |r| ==> Found(index, r[k]).Some? == found
  {
    if vs == [] then []
    else (if Found(index, vs[0]).Some? == found then [vs[0]] else []) + Sift(index, vs[1..], found)
  }

  lemma {:induction false} SiftAppend(index: Index, vs: seq<string>, x: string, found: bool)
    ensures Sift(index, vs + [x], found) == Sift(index, vs, found) + (if Found(index, x).Some? == found then [x] else [])
    decreases |vs|
  {
    if vs == [] {
      assert vs + [x] == [x] && [x][1..] == [];
    } else {
      var t := vs + [x];
      assert t[0] == vs[0] && t[1..] == vs[1..] + [x];
      SiftAppend(index, vs[1..], x, found);
      var head := if Found(index, vs[0]).Some? == found then [vs[0]] else [];
      assert Sift(index, t, found) == head + Sift(index, vs[1..] + [x], found);
      assert Sift(index, vs, found) == head + Sift(index, vs[1..], found);
    }
  }

  /** `list.remove`: the first copy of `v` taken out. */
  function RemoveFirst(s: seq<string>, v: string): (r: seq<string>)
    ensures |s| - 1 <= |r| <= |s|
    ensures |r| == |s| ==> r == s
  {
    if s == [] then []
    else if s[0] == v then s[1..]
    else [s[0]] + RemoveFirst(s[1..], v)
  }

  /** A copy is taken out exactly when there is one. */
  lemma {:induction false} RemoveFirstRemoves(s: seq<string>, v: string)
    ensures v in s <==> |RemoveFirst(s, v)| == |s| - 1
  {
    if s != [] && s[0] != v {
      assert s == [s[0]] + s[1..];
      RemoveFirstRemoves(s[1..], v);
    }
  }

  /** The removals made in turn. */
  function RemoveEach(s: seq<string>, rs: seq<string>): seq<string>
    decreases |rs|
  {
    if rs == [] then s else RemoveEach(RemoveFirst(s, rs[0]), rs[1..])
  }

  lemma {:induction false} RemoveFirstPast(front: seq<string>, x: string, rest: seq<string>)
    requires x !in front
    ensures RemoveFirst(front + [x] + rest, x) == front + rest
  {
    if front != [] {
      var s := front + [x] + rest;
      assert s[0] == front[0] && s[0] != x;
      assert s[1..] == front[1..] + [x] + rest;
      assert x !in front[1..];
      RemoveFirstPast(front[1..], x, rest);
      assert front + rest == [front[0]] + (front[1..] + rest);
    }
  }

  /** Removing the values not found, one copy per occurrence, leaves exactly
      the values found, in order. */
  lemma {:induction false} RemoveUnfound(index: Index, front: seq<string>, vs: seq<string>)
    requires forall y :: y in front ==> Found(index, y).Some?
    ensures RemoveEach(front + vs, Sift(index, vs, false)) == front + Sift(index, vs, true)
    decreases |vs|
  {
    if vs == [] {
      assert front + [] == front;
    } else if Found(index, vs[0]).Some? {
      RemoveUnfound(index, front + [vs[0]], vs[1..]);
      UnfoundFoundStep(index, front, vs);
    } else {
      RemoveUnfound(index, front, vs[1..]);
      UnfoundMissingStep(index, front, vs);
    }
  }

  /** The step of `RemoveUnfound` past a value that is found: it joins the front. */
  lemma UnfoundFoundStep(index: Index, front: seq<string>, vs: seq<string>)
    requires vs != [] && Found(index, vs[0]).Some?
    requires RemoveEach((front + [vs[0]]) + vs[1..], Sift(index, vs[1..], false)) == (front + [vs[0]]) + Sift(index, vs[1..], true)
    ensures RemoveEach(front + vs, Sift(index, vs, false)) == front + Sift(index, vs, true)
  {
    FoundHeadRemovals(index, front, vs);
    FoundHeadKept(index, front, vs);
  }

  /** A found first value is not among the removals, so it can join the front. */
  lemma FoundHeadRemovals(index: Index, front: seq<string>, vs: seq<string>)
    requires vs != [] && Found(index, vs[0]).Some?
    ensures RemoveEach(front + vs, Sift(index, vs, false)) ==
            RemoveEach((front + [vs[0]]) + vs[1..], Sift(index, vs[1..], false))
  {
    assert front + vs == (front + [vs[0]]) + vs[1..];
    assert Sift(index, vs, false) == Sift(index, vs[1..], false);
  }

  /** A found first value heads the values kept. */
  lemma FoundHeadKept(index: Index, front: seq<string>, vs: seq<string>)
    requires vs != [] && Found(index, vs[0]).Some?
    ensures (front + [vs[0]]) + Sift(index, vs[1..], true) == front + Sift(index, vs, true)
  {
    assert Sift(index, vs, true) == [vs[0]] + Sift(index, vs[1..], true);
  }

  /** The step of `RemoveUnfound` past a value that is not found: its copy is
      the first one removed. */
  lemma UnfoundMissingStep(index: Index, front: seq<string>, vs: seq<string>)
    requires forall y :: y in front ==> Found(index, y).Some?
    requires vs != [] && Found(index, vs[0]).None?
    requires RemoveEach(front + vs[1..], Sift(index, vs[1..], false)) == front + Sift(index, vs[1..], true)
    ensures RemoveEach(front + vs, Sift(index, vs, false)) == front + Sift(index, vs, true)
  {
    var x := vs[0];
    assert front + vs == front + [x] + vs[1..];
    RemoveFirstPast(front, x, vs[1..]);
    var rs := Sift(index, vs, false);
    assert rs == [x] + Sift(index, vs[1..], false);
    assert RemoveEach(front + vs, rs) == RemoveEach(RemoveFirst(front + vs, x), rs[1..]);
    assert rs[1..] == Sift(index, vs[1..], false);
    assert Sift(index, vs, true) == Sift(index, vs[1..], true);
  }

  /** The values kept are exactly those found in the index. */
  lemma {:induction false} KeptAreFound(index: Index, vs: seq<string>)
    ensures forall x :: x in Sift(index, vs, true) <==> x in vs && Found(index, x).Some?
  {
    if vs != [] {
      KeptAreFound(index, vs[1..]);
      assert forall x :: x in vs <==> x == vs[0] || x in vs[1..];
    }
  }

  /** Each recorded entry names a kept value and where the index has it;
      each kept value's category has an entry. */
  lemma {:induction false} IndexedMeaning(index: Index, vs: seq<string>)
    ensures forall c :: c in Indexed(index, vs) ==>
              Indexed(index, vs)[c].0 in vs &&
              Found(index, Indexed(index, vs)[c].0) == Some((c, Indexed(index, vs)[c].1))
    ensures forall v :: v in vs && Found(index, v).Some? ==> Found(index, v).value.0 in Indexed(index, vs)
  {
    if vs != [] {
      var front := vs[..|vs| - 1];
      IndexedMeaning(index, front);
      assert vs == front + [vs[|vs| - 1]];
      assert forall v :: v in vs <==> v in front || v == vs[|vs| - 1];
    }
  }

  /** The search of `build_index_dict` for the first category holding `v`. */
  method FirstCategory(index: Index, v: string) returns (hit: Option<Entry>)
    ensures hit == Found(index, v)
  {
    var j := 0;
    while j < |index|
      invariant 0 <= j <= |index|
      invariant Found(index, v) == Found(index[j..], v)
      decreases |index| - j
    {
      var pos := IndexOf(index[j].1, v);
      if pos.Some? {
        return Some((index[j].0, pos.value));
      }
      assert index[j..][1..] == index[j + 1..];
      j := j + 1;
    }
    return None;
  }

  /** The loop of `build_index_dict` over the values: each found value
      recorded under its category, the others listed for removal. */
  method Scan(index: Index, values: seq<string>) returns (d: map<string, Entry>, toRemove: seq<string>)
    ensures d == Indexed(index, values)
    ensures toRemove == Sift(index, values, false)
  {
    d := map[];
    toRemove := [];
    for i := 0 to |values|
      invariant d == Indexed(index, values[..i])
      invariant toRemove == Sift(index, values[..i], false)
    {
      var v := values[i];
      var hit := FirstCategory(index, v);
      assert values[..i + 1] == values[..i] + [v];
      IndexedAppend(index, values[..i], v);
      SiftAppend(index, values[..i], v, false);
      if hit.Some? {
        d := d[hit.value.0 := (v, hit.value.1)];
      } else {
        toRemove := toRemove + [v];
      }
    }
    assert values[..|values|] == values;
  }

  /** The removal loop of `build_index_dict`. */
  method RemoveAll(values: seq<string>, toRemove: seq<string>) returns (r: seq<string>)
    ensures r == RemoveEach(values, toRemove)
  {
    r := values;
    assert toRemove[0..] == toRemove;
    for k := 0 to |toRemove|
      invariant RemoveEach(r, toRemove[k..]) == RemoveEach(values, toRemove)
    {
      assert toRemove[k..][1..] == toRemove[k + 1..];
      r := RemoveFirst(r, toRemove[k]);
    }
    assert toRemove[|toRemove|..] == [];
  }

  /** `path.split(".")`. */
  function SplitDots(s: string): (r: seq<string>)
    ensures |r| > 0
  {
    if s == [] then [[]]
    else
      var rest := SplitDots(s[1..]);
      if s[0] == '.' then [[]] + rest else [[s[0]] + rest[0]] + rest[1..]
  }

  /** `".".join(parts)`. */
  function JoinDots(parts: seq<string>): string
    requires |parts| > 0
  {
    if |parts| == 1 then parts[0] else parts[0] + "." + JoinDots(parts[1..])
  }

  /** Splitting at dots gives dot-free parts that join back to the text. */
  lemma {:induction false} SplitJoin(s: string)
    ensures JoinDots(SplitDots(s)) == s
    ensures forall i :: 0 <= i < |SplitDots(s)| ==> '.' !in SplitDots(s)[i]
  {
    if s != [] {
      SplitJoin(s[1..]);
      var rest := SplitDots(s[1..]);
      if s[0] == '.' {
        assert SplitDots(s)[1..] == rest;
        assert s == "." + s[1..];
      } else {
        var r := SplitDots(s);
        assert r[1..] == rest[1..];
        if |rest| > 1 {
          assert rest[1..] == rest[1..];
          assert JoinDots(rest) == rest[0] + "." + JoinDots(rest[1..]);
        }
        assert s == [s[0]] + s[1..];
        forall i | 0 <= i < |r| ensures '.' !in r[i] {
          if i > 0 {
            assert r[i] == rest[i];
          }
        }
      }
    }
  }

  /** The values `build_index_dict` works on: the label's own, or, when it
      has none, the parts of its first path. */
  function Source(values: seq<string>, paths: seq<string>): seq<string>
  {
    if |values| == 0 && |paths| > 0 then SplitDots(paths[0]) else values
  }

  // ---------------------------------------------------------------------
  // Text attributes

  /** The text-valued attributes, by their public names. */
  const TextNames: set<string> :=
    {"name", "text", "graph", "latex", "mark", "axis", "xaxis", "yaxis", "plottitle",
     "roottitle", "rootaxis", "unit", "latexunit", "xunit", "yunit"}

  /** The attribute a name refers to: the public name or the underscored
      slot name. */
  function SlotOf(k: string): (r: Option<string>)
    ensures r.Some? ==> r.value in TextNames
    ensures k in TextNames ==> r == Some(k)
  {
    if k in TextNames then Some(k)
    else if |k| > 0 && k[0] == '_' && k[1..] in TextNames then Some(k[1..])
    else None
  }

  function Raw(slots: map<string, Option<string>>, n: string): Option<string>
  {
    if n in slots then slots[n] else None
  }

  /** Python's `a or b` on optional text. */
  function Or(a: Option<string>, b: Option<string>): Option<string>
  {
    if a.Some? && a.value != [] then a else b
  }

  /** `getattr(labels, k)`: `latex` falls back on the text and `latexunit`
      on the unit when unset or empty; an unknown name raises
      AttributeError. */
  function Read(slots: map<string, Option<string>>, k: string): (r: Result<Option<string>>)
    ensures r.Err? <==> SlotOf(k).None?
    ensures r.Err? ==> r.error == AttributeError
    ensures k == "latex" ==> r == Ok(Or(Raw(slots, "latex"), Raw(slots, "text")))
    ensures k == "latexunit" ==> r == Ok(Or(Raw(slots, "latexunit"), Raw(slots, "unit")))
  {
    match SlotOf(k)
    case None => Err(AttributeError)
    case Some(n) =>
      if k == "latex" then Ok(Or(Raw(slots, "latex"), Raw(slots, "text")))
      else if k == "latexunit" then Ok(Or(Raw(slots, "latexunit"), Raw(slots, "unit")))
      else Ok(Raw(slots, n))
  }

  /** An attribute that reads as unset holds nothing, or, for the two with
      a fallback, possibly the empty text. */
  lemma UnsetMeansEmpty(slots: map<string, Option<string>>, k: string)
    requires Read(slots, k) == Ok(None)
    ensures Raw(slots, SlotOf(k).value) == None ||
            (Raw(slots, SlotOf(k).value) == Some([]) && SlotOf(k).value in {"latex", "latexunit"})
  {
  }

  /** `setdefault(k, default)`: an attribute that reads as set is returned;
      otherwise `default` is stored and returned.  An unknown name reads as
      unset and then cannot be stored: AttributeError. */
  function WithDefault(slots: map<string, Option<string>>, k: string, d: string): (r: (map<string, Option<string>>, Result<string>))
    ensures r.1.Err? <==> SlotOf(k).None?
    ensures r.1.Err? ==> r.0 == slots
    ensures Read(slots, k).Ok? && Read(slots, k).value.Some? ==> r == (slots, Ok(Read(slots, k).value.value))
  {
    match Read(slots, k)
    case Err(e) => (slots, Err(e))
    case Ok(Some(x)) => (slots, Ok(x))
    case Ok(None) => (slots[SlotOf(k).value := Some(d)], Ok(d))
  }

  /** After `setdefault`, the attribute reads as the returned value (unless
      that is an empty text behind a fallback), only its own slot may have
      changed, and a second `setdefault`, whatever its default, returns the
      same value. */
  lemma DefaultSticks(slots: map<string, Option<string>>, k: string, d: string, d2: string)
    requires WithDefault(slots, k, d).1.Ok?
    requires k !in {"latex", "latexunit"} || WithDefault(slots, k, d).1.value != []
    ensures Read(WithDefault(slots, k, d).0, k) == Ok(Some(WithDefault(slots, k, d).1.value))
    ensures forall n :: n != SlotOf(k).value ==> Raw(WithDefault(slots, k, d).0, n) == Raw(slots, n)
    ensures WithDefault(WithDefault(slots, k, d).0, k, d2) == WithDefault(slots, k, d)
  {
    if Read(slots, k) == Ok(None) {
      UnsetMeansEmpty(slots, k);
    }
  }

  /** `setdefaults(labels)`: each attribute that reads as unset takes its
      default, in order; an unknown name raises AttributeError, leaving the
      earlier ones set. */
  function AllDefaults(slots: map<string, Option<string>>, items: seq<(string, string)>): (r: (map<string, Option<string>>, Outcome))
    ensures r.1.Fail? ==> r.1.error == AttributeError
    ensures r.1.Fail? <==> exists i :: 0 <= i < |items| && SlotOf(items[i].0).None?
    decreases |items|
  {
    if items == [] then (slots, Pass)
    else
      assert forall i :: 1 <= i < |items| ==> items[i] == items[1..][i - 1];
      match Read(slots, items[0].0)
      case Err(_) => (slots, Fail(AttributeError))
      case Ok(None) => AllDefaults(slots[SlotOf(items[0].0).value := Some(items[0].1)], items[1..])
      case Ok(Some(_)) => AllDefaults(slots, items[1..])
  }

  /** `setdefaults` only fills attributes that read as unset, each with a
      default given for it. */
  lemma {:induction false} DefaultsFillOnlyUnset(slots: map<string, Option<string>>, items: seq<(string, string)>)
    ensures forall n :: Raw(AllDefaults(slots, items).0, n) != Raw(slots, n) ==>
              (Raw(slots, n) == None || (Raw(slots, n) == Some([]) && n in {"latex", "latexunit"})) &&
              exists i :: 0 <= i < |items| && SlotOf(items[i].0) == Some(n) &&
                          Raw(AllDefaults(slots, items).0, n) == Some(items[i].1)
    decreases |items|
  {
    if items != [] {
      var k := items[0].0;
      var r := AllDefaults(slots, items).0;
      assert forall i :: 1 <= i < |items| ==> items[i] == items[1..][i - 1];
      match Read(slots, k)
      case Err(_) =>
      case Ok(Some(_)) =>
        DefaultsFillOnlyUnset(slots, items[1..]);
      case Ok(None) =>
        var s1 := slots[SlotOf(k).value := Some(items[0].1)];
        UnsetMeansEmpty(slots, k);
        DefaultsFillOnlyUnset(s1, items[1..]);
        forall n | Raw(r, n) != Raw(slots, n)
          ensures (Raw(slots, n) == None || (Raw(slots, n) == Some([]) && n in {"latex", "latexunit"})) &&
                  exists i :: 0 <= i < |items| && SlotOf(items[i].0) == Some(n) && Raw(r, n) == Some(items[i].1)
        {
          if n == SlotOf(k).value && Raw(r, n) == Raw(s1, n) {
            assert SlotOf(items[0].0) == Some(n) && Raw(r, n) == Some(items[0].1);
          }
        }
    }
  }

  // ---------------------------------------------------------------------
  // The object

  class Label {
    /** The text attributes, by public name. */
    var slots: map<string, Option<string>>
    var paths: seq<string>
    var indexValues: seq<string>
    var indexDict: map<string, Entry>
    var plotoptions: map<string, string>

    constructor()
      ensures slots == map n | n in TextNames :: None
      ensures paths == [] && indexValues == [] && indexDict == map[] && plotoptions == map[]
    {
      slots := map n | n in TextNames :: None;
      paths := [];
      indexValues := [];
      indexDict := map[];
      plotoptions := map[];
    }

    /** `plotable`: true unless the plot method is "none". */
    function Plotable(): (r: bool)
      reads this
      ensures r <==> !("method" in plotoptions && plotoptions["method"] == "none")
      ensures |plotoptions| == 0 ==> r
    {
      if |plotoptions| == 0 then true
      else !("method" in plotoptions && plotoptions["method"] == "none")
    }

    /** `index_in_mask`, with its loop. */
    method IndexInMask(mask: Option<seq<(string, Criterion)>>) returns (r: Result<bool>)
      ensures r == MaskVerdict(indexDict, mask)
    {
      if mask.None? {
        return Ok(true);
      }
      var m := mask.value;
      for i := 0 to |m|
        invariant Verdict(indexDict, m[i..]) == Verdict(indexDict, m)
      {
        assert m[i..][1..] == m[i + 1..];
        var (category, accepted) := m[i];
        if category !in indexDict {
          continue;
        }
        if accepted.Number? {
          return Err(TypeError);
        }
        if !Accepts(indexDict[category], accepted) {
          return Ok(false);
        }
      }
      return Ok(true);
    }

    /** `build_index_dict(index)`: nothing happens without an index or when
      the dictionary is already filled; otherwise each value (taken from
      the first path when there are none) is recorded under the first
      category that holds it, and the values no category holds are
      removed. */
    method BuildIndexDict(index: Index)
      modifies this
      ensures |index| == 0 || |old(indexDict)| > 0 ==>
                indexDict == old(indexDict) && indexValues == old(indexValues)
      ensures |index| > 0 && |old(indexDict)| == 0 ==>
                indexDict == Indexed(index, Source(old(indexValues), old(paths))) &&
                indexValues == Sift(index, Source(old(indexValues), old(paths)), true)
      ensures slots == old(slots) && paths == old(paths) && plotoptions == old(plotoptions)
    {
      if |index| == 0 || |indexDict| > 0 {
        return;
      }
      if |indexValues| == 0 && |paths| > 0 {
        indexValues := SplitDots(paths[0]);
      }
      var values := indexValues;
      assert values == Source(old(indexValues), old(paths));
      var toRemove;
      indexDict, toRemove := Scan(index, values);
      indexValues := RemoveAll(values, toRemove);
      RemoveUnfound(index, [], values);
      assert [] + values == values;
    }

    /** `setdefault(k, default)`. */
    method SetDefault(k: string, d: string) returns (r: Result<string>)
      modifies this
      ensures (slots, r) == WithDefault(old(slots), k, d)
      ensures paths == old(paths) && indexValues == old(indexValues) && indexDict == old(indexDict)
      ensures plotoptions == old(plotoptions)
    {
      var current := Read(slots, k);
      match current
      case Err(e) => return Err(e);
      case Ok(Some(x)) => return Ok(x);
      case Ok(None) =>
        slots := slots[SlotOf(k).value := Some(d)];
        return Ok(d);
    }

    /** `setdefaults(labels)`, with its loop. */
    method SetDefaults(items: seq<(string, string)>) returns (r: Outcome)
      modifies this
      ensures (slots, r) == AllDefaults(old(slots), items)
      ensures paths == old(paths) && indexValues == old(indexValues) && indexDict == old(indexDict)
      ensures plotoptions == old(plotoptions)
    {
      for i := 0 to |items|
        invariant AllDefaults(slots, items[i..]) == AllDefaults(old(slots), items)
        invariant paths == old(paths) && indexValues == old(indexValues) && indexDict == old(indexDict)
        invariant plotoptions == old(plotoptions)
      {
        assert items[i..][1..] == items[i + 1..];
        match Read(slots, items[i].0)
        case Err(_) =>
          return Fail(AttributeError);
        case Ok(None) =>
          slots := slots[SlotOf(items[i].0).value := Some(items[i].1)];
        case Ok(Some(_)) =>
      }
      return Pass;
    }
  }
}
