/** Port-name formatters (dagflow/inputhandler.py, `Formatter` and its
    subclasses): they turn a running number into the name of a new input or
    output.  The number format is the default `"_{:02d}"`. */
module Formatters {
  import opened Base
  import opened Strings

  /** A plain string holding a `{` placeholder is used through its own
      `str.format`; otherwise a base name, or a cycle of base names. */
  datatype Formatter =
    | Template(text: string)
    | Simple(base: string)
    | Sequential(bases: seq<string>, start: int)

  /** The default number format `"_{:02d}"`. */
  function Suffix(n: int): string
  {
    "_" + Pad2(n)
  }

  /** `Formatter.from_string`. */
  function FromString(s: string): (f: Formatter)
    ensures f.Template? <==> '{' in s
    ensures f.Template? ==> f.text == s
    ensures f.Simple? ==> f.base == s
    ensures !f.Sequential?
  {
    if '{' in s then Template(s) else Simple(s)
  }

  /** What `Formatter.from_value` may be given. */
  datatype FormatArg =
    | AFormatter(f: Formatter)
    | AString(s: string)
    | ASequence(items: seq<string>)
    | AOther

  /** `Formatter.from_value`: a formatter is kept, a string goes through
      `from_string`, any other sequence becomes a cycle starting at 0. */
  function FromValue(v: FormatArg): (r: Result<Formatter>)
    ensures r.Err? <==> v.AOther?
    ensures r.Err? ==> r.error == InitializationError
    ensures v.AFormatter? ==> r == Ok(v.f)
    ensures v.AString? ==> r == Ok(FromString(v.s))
    ensures v.ASequence? ==> r == Ok(Sequential(v.items, 0))
  {
    match v
    case AFormatter(f) => Ok(f)
    case AString(s) => Ok(FromString(s))
    case ASequence(items) => Ok(Sequential(items, 0))
    case AOther => Err(InitializationError)
  }

  /** `format(num)`.  A template's placeholders are taken to be `{}`. */
  function Format(f: Formatter, num: int): (r: Result<string>)
    ensures f.Simple? ==> r.Ok? && f.base <= r.value && (r.value == f.base <==> num <= 0)
    ensures f.Sequential? ==> (r.Err? <==> |f.bases| == 0 || num < f.start)
    ensures f.Sequential? && |f.bases| == 0 ==> r == Err(ZeroDivisionError)
    ensures f.Sequential? && |f.bases| > 0 && num < f.start ==> r == Err(ValueError)
    ensures f.Sequential? && r.Ok? ==> f.bases[(num - f.start) % |f.bases|] <= r.value
    ensures f.Template? ==> r.Ok?
  {
    match f
    case Template(text) => Ok(Replace(text, "{}", IntToStr(num)))
    case Simple(base) => Ok(if num > 0 then base + Suffix(num) else base)
    case Sequential(bases, start) =>
      if |bases| == 0 then Err(ZeroDivisionError)
      else
        var k := num - start;
        var idx := k % |bases|;
        var group := k / |bases|;
        if group > 0 then Ok(bases[idx] + Suffix(group))
        else if k < 0 then Err(ValueError)
        else Ok(bases[idx])
  }

  /** A simple formatter never gives two non-negative numbers the same
      name. */
  lemma SimpleFormatInjective(base: string, m: nat, n: nat)
    requires Format(Simple(base), m) == Format(Simple(base), n)
    ensures m == n
  {
    var a, b := Format(Simple(base), m).value, Format(Simple(base), n).value;
    if m > 0 && n > 0 {
      assert Pad2(m) == a[|base| + 1..] == b[|base| + 1..] == Pad2(n);
      Pad2Injective(m, n);
    }
  }

  /** Numbers walk through the bases in order; each full cycle past the
      first adds the cycle number as a suffix. */
  lemma SequentialCycle(bases: seq<string>, start: int, group: nat, i: nat)
    requires i < |bases|
    ensures Format(Sequential(bases, start), start + group * |bases| + i)
         == Ok(if group > 0 then bases[i] + Suffix(group) else bases[i])
  {
    DivModUnique(|bases|, group, i);
    assert group * |bases| + i == |bases| * group + i;
  }

  /** Euclidean division recovers quotient and remainder. */
  lemma DivModUnique(d: int, q: int, r: int)
    requires d > 0 && 0 <= r < d
    ensures (d * q + r) / d == q && (d * q + r) % d == r
  {
    var k := d * q + r;
    var x := q - k / d;
    assert d * x == k % d - r by {
      assert k == d * (k / d) + k % d;
    }
  }

  predicate NoUnderscore(s: string)
  {
    '_' !in s
  }

  /** In base, `_`, suffix with an underscore-free base, the first
      underscore is the one after the base. */
  lemma FirstUnderscore(a: string, x: string)
    requires NoUnderscore(a)
    ensures (a + "_" + x)[|a|] == '_'
    ensures forall j :: 0 <= j < |a| ==> (a + "_" + x)[j] != '_'
  {
    forall j | 0 <= j < |a| ensures (a + "_" + x)[j] != '_' {
      assert (a + "_" + x)[j] == a[j];
    }
  }

  /** Splitting at the first underscore: two names built as base, `_`,
      suffix from underscore-free bases agree only part by part. */
  lemma SplitAtUnderscore(a: string, x: string, b: string, y: string)
    requires NoUnderscore(a) && NoUnderscore(b)
    requires a + "_" + x == b + "_" + y
    ensures a == b && x == y
  {
    var s := a + "_" + x;
    FirstUnderscore(a, x);
    FirstUnderscore(b, y);
    assert |a| == |b|;
    assert a == s[..|a|] == b;
    assert x == s[|a| + 1..] == y;
  }

  /** The number and the name of an accepted number: its place in the
      cycle and its cycle count. */
  lemma SequentialShape(bases: seq<string>, start: int, m: int) returns (i: nat, g: nat)
    requires Format(Sequential(bases, start), m).Ok?
    ensures i < |bases| && m - start == |bases| * g + i
    ensures Format(Sequential(bases, start), m).value
         == if g > 0 then bases[i] + "_" + Pad2(g) else bases[i]
  {
    var k := m - start;
    i, g := k % |bases|, k / |bases|;
  }

  /** With distinct bases free of underscores, a sequential formatter gives
      distinct names to distinct numbers it accepts. */
  lemma SequentialFormatInjective(bases: seq<string>, start: int, m: int, n: int)
    requires forall i, j :: 0 <= i < j < |bases| ==> bases[i] != bases[j]
    requires forall i :: 0 <= i < |bases| ==> NoUnderscore(bases[i])
    requires Format(Sequential(bases, start), m).Ok?
    requires Format(Sequential(bases, start), m) == Format(Sequential(bases, start), n)
    ensures m == n
  {
    var s := Format(Sequential(bases, start), m).value;
    var i1, g1 := SequentialShape(bases, start, m);
    var i2, g2 := SequentialShape(bases, start, n);
    if g1 > 0 && g2 > 0 {
      SplitAtUnderscore(bases[i1], Pad2(g1), bases[i2], Pad2(g2));
      Pad2Injective(g1, g2);
    }
    assert bases[i1] == bases[i2];
    assert i1 == i2;
  }
}
