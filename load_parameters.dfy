/** The parameter-configuration checks and the per-entry processing of
    src/dagflow/bundles/load_parameters.py: which value formats are
    accepted, the consistency of every entry with the format, the shape of
    a correlation matrix, and how an entry becomes a central value, a value
    and an uncertainty. */
module LoadParameters {
  import opened Base

  // ---------------------------------------------------------------------
  // Formats

  /** A value format: a single word, a list (or tuple) of field names, or
      anything else. */
  datatype Format = Word(w: string) | Fields(names: seq<string>) | Other

  /** The names of the uncertainty fields. */
  predicate IsSigma(s: string)
  {
    s == "sigma_absolute" || s == "sigma_relative" || s == "sigma_percent"
  }

  /** The fields before the uncertainty: "value", "central" or both, in
      either order. */
  predicate ValCent(v: seq<string>)
  {
    v == ["value"] || v == ["central"] || v == ["value", "central"] || v == ["central", "value"]
  }

  /** `IsFormatOk`: the word "value", the list ["value"], or a list of
      "value" and/or "central" (one of four arrangements) followed by one
      uncertainty field. */
  function IsFormatOk(f: Format): bool
  {
    match f
    case Word(w) => w == "value"
    case Other => false
    case Fields(ns) =>
      ns == ["value"] ||
      (|ns| >= 1 && IsSigma(ns[|ns| - 1]) &&
       ValCent(ns[..|ns| - 1]))
  }

  /** The accepted formats, listed. */
  const Accepted: set<Format> :=
    {Word("value"), Fields(["value"])} +
    (set v, s | v in {["value"], ["central"], ["value", "central"], ["central", "value"]} &&
                s in {"sigma_absolute", "sigma_relative", "sigma_percent"} :: Fields(v + [s]))

  /** Exactly the fourteen listed formats are accepted. */
  lemma FormatsAccepted(f: Format)
    ensures IsFormatOk(f) <==> f in Accepted
  {
    if f in Accepted { AcceptedOk(f); }
    if IsFormatOk(f) { OkAccepted(f); }
  }

  /** Every listed format passes the check. */
  lemma AcceptedOk(f: Format)
    requires f in Accepted
    ensures IsFormatOk(f)
  {
    if f.Fields? && f != Fields(["value"]) {
      var v, s :| v in {["value"], ["central"], ["value", "central"], ["central", "value"]} &&
                  s in {"sigma_absolute", "sigma_relative", "sigma_percent"} && f == Fields(v + [s]);
      assert f.names[..|f.names| - 1] == v;
    }
  }

  /** Every format that passes the check is listed. */
  lemma OkAccepted(f: Format)
    requires IsFormatOk(f)
    ensures f in Accepted
  {
    if f.Fields? && f != Fields(["value"]) {
      var ns := f.names;
      assert ns == ns[..|ns| - 1] + [ns[|ns| - 1]];
    }
  }

  /** The number of elements an entry must have: one for a word, else the
      number of fields. */
  function NElements(f: Format): nat
  {
    match f
    case Word(_) => 1
    case Fields(ns) => |ns|
    case Other => 0
  }

  // ---------------------------------------------------------------------
  // Entries and their consistency with the format

  /** A parameter entry: one number or a tuple of numbers. */
  datatype Num = Scalar(x: real) | Tuple(xs: seq<real>)

  /** `ParsCfgHasProperFormat.validate` for one entry: a tuple must have as
      many elements as the format, a single number needs a one-element
      format. */
  predicate Consistent(n: nat, e: Num)
  {
    match e
    case Tuple(xs) => |xs| == n
    case Scalar(_) => n == 1
  }

  /** The configuration check: the format schema first, then every entry
      against the format; any failure is a SchemaError. */
  function CheckConfig(f: Format, entries: seq<Num>): (r: Outcome)
    ensures r.Pass? <==> IsFormatOk(f) && forall i :: 0 <= i < |entries| ==> Consistent(NElements(f), entries[i])
    ensures r.Fail? ==> r.error == SchemaError
  {
    if !IsFormatOk(f) then Fail(SchemaError)
    else if forall i :: 0 <= i < |entries| ==> Consistent(NElements(f), entries[i]) then Pass
    else Fail(SchemaError)
  }

  /** `CheckCorrelationSizes`: the matrix has one row per name and every
      row one column per name. */
  function CheckCorrelationSizes(names: seq<string>, matrix: seq<seq<real>>): (r: bool)
    ensures r <==> |matrix| == |names| && forall i :: 0 <= i < |matrix| ==> |matrix[i]| == |names|
  {
    if |matrix| != |names| then false else forall row :: row in matrix ==> |row| == |names|
  }

  // ---------------------------------------------------------------------
  // Processing

  /** The processors `get_format_processor` chooses among. */
  datatype Processor = Fixed1 | Fixed2 | Absolute | Relative | Percent

  predicate StartsWith(s: string, p: string)
  {
    |p| <= |s| && s[..|p|] == p
  }

  predicate EndsWith(s: string, p: string)
  {
    |p| <= |s| && s[|s| - |p|..] == p
  }

  /** `get_format_processor`: a word gives `fixed1`; otherwise the last
      field decides: not an uncertainty gives `fixed2`, else the absolute,
      relative or (for any other ending) percent processor.  An empty list
      has no last field and anything else cannot be indexed. */
  function GetProcessor(f: Format): (r: Result<Processor>)
    ensures f.Word? ==> r == Ok(Fixed1)
    ensures f == Fields([]) ==> r == Err(IndexError)
    ensures f.Other? ==> r == Err(TypeError)
  {
    match f
    case Word(_) => Ok(Fixed1)
    case Other => Err(TypeError)
    case Fields(ns) =>
      if ns == [] then Err(IndexError)
      else
        var last := ns[|ns| - 1];
        if !StartsWith(last, "sigma") then Ok(Fixed2)
        else if EndsWith(last, "_absolute") then Ok(Absolute)
        else if EndsWith(last, "_relative") then Ok(Relative)
        else Ok(Percent)
  }

  /** Each accepted format gets the processor its uncertainty field names. */
  lemma ProcessorOfAccepted(f: Format)
    requires IsFormatOk(f)
    ensures f.Word? || f == Fields(["value"]) ==> GetProcessor(f) == Ok(if f.Word? then Fixed1 else Fixed2)
    ensures f.Fields? && f.names[|f.names| - 1] == "sigma_absolute" ==> GetProcessor(f) == Ok(Absolute)
    ensures f.Fields? && f.names[|f.names| - 1] == "sigma_relative" ==> GetProcessor(f) == Ok(Relative)
    ensures f.Fields? && f.names[|f.names| - 1] == "sigma_percent" ==> GetProcessor(f) == Ok(Percent)
  {
    if f.Fields? {
      var last := f.names[|f.names| - 1];
      if last == "sigma_absolute" {
        assert StartsWith(last, "sigma") && EndsWith(last, "_absolute");
      } else if last == "sigma_relative" {
        assert StartsWith(last, "sigma") && !EndsWith(last, "_absolute") && EndsWith(last, "_relative");
      } else if last == "sigma_percent" {
        assert StartsWith(last, "sigma") && !EndsWith(last, "_absolute") && !EndsWith(last, "_relative");
      } else {
        assert f.names == ["value"] && last == "value";
        assert last[..5][0] == 'v';
      }
    }
  }

  /** `dict(zip(names, xs))` for the first `m` pairs: a later name
      overwrites an earlier one. */
  function ZipUpTo(ns: seq<string>, xs: seq<real>, m: nat): (d: map<string, real>)
    requires m <= |ns| && m <= |xs|
    ensures forall k :: k in d <==> k in ns[..m]
  {
    if m == 0 then map[]
    else
      var d := ZipUpTo(ns, xs, m - 1);
      assert ns[..m] == ns[..m - 1] + [ns[m - 1]];
      d[ns[m - 1] := xs[m - 1]]
  }

  function Zip(ns: seq<string>, xs: seq<real>): (d: map<string, real>)
    ensures forall k :: k in d <==> k in ns[..if |ns| <= |xs| then |ns| else |xs|]
  {
    ZipUpTo(ns, xs, if |ns| <= |xs| then |ns| else |xs|)
  }

  /** What an entry becomes: central value, value and uncertainty (none for
      a fixed parameter). */
  datatype Var = Var(central: Num, value: Num, sigma: Option<real>)

  function Abs(x: real): real
  {
    if x < 0.0 then -x else x
  }

  /** `process_var_fixed2` up to its result dictionary: the fields paired
      with the numbers, `value` defaulting to `central` when the format
      has a central field and `central` to `value` otherwise.  A single
      number cannot be paired (TypeError) and a missing field is a
      KeyError. */
  function Paired(ns: seq<string>, e: Num, hasCentral: bool): (r: Result<map<string, real>>)
    ensures e.Scalar? ==> r == Err(TypeError)
    ensures r.Ok? ==> "central" in r.value && "value" in r.value
  {
    match e
    case Scalar(_) => Err(TypeError)
    case Tuple(xs) =>
      var d := Zip(ns, xs);
      if hasCentral then
        if "central" !in d then Err(KeyError)
        else Ok(if "value" in d then d else d["value" := d["central"]])
      else
        if "value" !in d then Err(KeyError)
        else Ok(if "central" in d then d else d["central" := d["value"]])
  }

  /** The uncertainty of a parameter with central value `c` given by the
      field `kind` holding `s`: `s` itself for an absolute uncertainty,
      `s·|c|` for a relative one, `0.01·s·|c|` for a percentage. */
  function Uncertainty(kind: string, s: real, c: real): real
  {
    if kind == "sigma_absolute" then s
    else if kind == "sigma_relative" then s * Abs(c)
    else 0.01 * s * Abs(c)
  }

  /** The uncertainty a processor computes from the paired fields; the
      field it reads must be there (KeyError). */
  function Sigma(p: Processor, d: map<string, real>): Result<Option<real>>
    requires "central" in d
  {
    var kind := match p
      case Absolute => "sigma_absolute"
      case Relative => "sigma_relative"
      case _ => "sigma_percent";
    if p == Fixed1 || p == Fixed2 then Ok(None)
    else if kind in d then Ok(Some(Uncertainty(kind, d[kind], d["central"])))
    else Err(KeyError)
  }

  /** `process(varcfg, format, hascentral)`, as written: `fixed1` makes the
      entry, whatever its shape, both central value and value; the others
      pair the fields with the entry's numbers. */
  function Process(p: Processor, ns: seq<string>, hasCentral: bool, e: Num): (r: Result<Var>)
    ensures p == Fixed1 ==> r == Ok(Var(e, e, None))
    ensures p != Fixed1 && e.Scalar? ==> r == Err(TypeError)
  {
    if p == Fixed1 then Ok(Var(e, e, None))
    else
      var d :- Paired(ns, e, hasCentral);
      var sigma :- Sigma(p, d);
      Ok(Var(Scalar(d["central"]), Scalar(d["value"]), sigma))
  }

  /** `hascentral`: whether the format lists a central field (a word only
      ever reaches `fixed1`, which does not look at it). */
  function HasCentral(f: Format): bool
  {
    f.Fields? && "central" in f.names
  }

  /** `iterate_varcfgs` for one entry, as written. */
  function LoadAsWritten(f: Format, e: Num): (r: Result<Var>)
    ensures f.Word? ==> r == Ok(Var(e, e, None))
    ensures f.Other? ==> r == Err(TypeError)
    ensures f == Fields([]) ==> r == Err(IndexError)
  {
    var p :- GetProcessor(f);
    Process(p, if f.Fields? then f.names else [], HasCentral(f), e)
  }

  /** The single number of an entry checked against a one-element format. */
  function Single(e: Num): real
    requires Consistent(1, e)
  {
    match e
    case Scalar(x) => x
    case Tuple(xs) => xs[0]
  }

  /** The processing the check admits: an entry of a one-element format,
      in either of the shapes the check accepts, is its one number as both
      central value and value; other formats are processed as written. */
  function Load(f: Format, e: Num): (r: Result<Var>)
    ensures r != LoadAsWritten(f, e) ==> IsFormatOk(f) && NElements(f) == 1 && Consistent(1, e)
  {
    if IsFormatOk(f) && NElements(f) == 1 && Consistent(1, e) then Ok(Var(Scalar(Single(e)), Scalar(Single(e)), None))
    else LoadAsWritten(f, e)
  }

  /** As written, both one-element formats mishandle the entry shape the
      check lets through for them: the list ["value"] with a single number
      raises TypeError, and the word "value" with a one-element tuple makes
      the tuple itself the value. */
  lemma OneElementFormatsAsWritten()
    ensures CheckConfig(Fields(["value"]), [Scalar(1.0)]).Pass?
    ensures LoadAsWritten(Fields(["value"]), Scalar(1.0)) == Err(TypeError)
    ensures CheckConfig(Word("value"), [Tuple([1.0])]).Pass?
    ensures LoadAsWritten(Word("value"), Tuple([1.0])) == Ok(Var(Tuple([1.0]), Tuple([1.0]), None))
  {
    assert "value"[..5][0] == 'v';
  }

  /** Every entry that passes the check is processed: central value and
      value are numbers, taken from the fields of those names (one standing
      in for the other when absent), and the uncertainty is the absolute
      one as given, the relative one times |central|, or the percentage of
      |central|. */
  lemma CheckedEntriesLoad(f: Format, e: Num)
    requires IsFormatOk(f) && Consistent(NElements(f), e)
    ensures Load(f, e).Ok?
    ensures NElements(f) == 1 ==> Load(f, e) == Ok(Var(Scalar(Single(e)), Scalar(Single(e)), None))
    ensures NElements(f) > 1 ==>
              var ns := f.names;
              var d := Zip(ns, e.xs);
              var c := if "central" in ns then d["central"] else d["value"];
              var kind := ns[|ns| - 1];
              kind in d &&
              Load(f, e).value.central == Scalar(c) &&
              Load(f, e).value.value == Scalar(if "value" in ns then d["value"] else d["central"]) &&
              Load(f, e).value.sigma == Some(Uncertainty(kind, d[kind], c))
  {
    ProcessorOfAccepted(f);
    if NElements(f) > 1 {
      assert f == Fields(f.names) && e == Tuple(e.xs);
      LoadFields(f.names, e.xs);
    }
  }

  /** The paired fields of an entry of an accepted multi-field format. */
  lemma PairedFields(ns: seq<string>, xs: seq<real>)
    requires IsFormatOk(Fields(ns)) && |ns| > 1 && |xs| == |ns|
    ensures Paired(ns, Tuple(xs), "central" in ns).Ok?
    ensures var d := Zip(ns, xs);
            var d2 := Paired(ns, Tuple(xs), "central" in ns).value;
            ns[|ns| - 1] in d && ns[|ns| - 1] in d2 && d2[ns[|ns| - 1]] == d[ns[|ns| - 1]] &&
            d2["central"] == (if "central" in ns then d["central"] else d["value"]) &&
            d2["value"] == (if "value" in ns then d["value"] else d["central"])
  {
    var kind := ns[|ns| - 1];
    assert ns[..|ns|] == ns;
    assert ValCent(ns[..|ns| - 1]);
    assert ns == ns[..|ns| - 1] + [kind];
    assert "value" in ns || "central" in ns;
    assert kind != "value" && kind != "central";
  }

  lemma LoadFields(ns: seq<string>, xs: seq<real>)
    requires IsFormatOk(Fields(ns)) && |ns| > 1 && |xs| == |ns|
    ensures var d := Zip(ns, xs);
            var c := if "central" in ns then d["central"] else d["value"];
            var kind := ns[|ns| - 1];
            kind in d &&
            Load(Fields(ns), Tuple(xs)).Ok? &&
            Load(Fields(ns), Tuple(xs)).value.central == Scalar(c) &&
            Load(Fields(ns), Tuple(xs)).value.value == Scalar(if "value" in ns then d["value"] else d["central"]) &&
            Load(Fields(ns), Tuple(xs)).value.sigma == Some(Uncertainty(kind, d[kind], c))
  {
    var f := Fields(ns);
    var e := Tuple(xs);
    ProcessorOfAccepted(f);
    PairedFields(ns, xs);
    var kind := ns[|ns| - 1];
    var d := Zip(ns, xs);
    var d2 := Paired(ns, e, "central" in ns).value;
    var p := GetProcessor(f).value;
    assert Load(f, e) == Process(p, ns, "central" in ns, e);
    assert d2[kind] == d[kind];
    assert p == Absolute || p == Relative || p == Percent;
    assert Sigma(p, d2) == Ok(Some(Uncertainty(kind, d[kind], d2["central"])));
  }
}
