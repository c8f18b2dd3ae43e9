/** Missing-input policies: what `output >> node` does when the node has no
    free input left.  The strategies of dagflow/core/input_strategy.py and
    the older handlers of dagflow/inputhandler.py (`MissingInput*`) decide
    whether to create an output, which output the new input is linked to,
    the new input's name, and the stored scope.

    A policy is split into a pure plan, computed here from the node's port
    counts, and its execution, which the node engine performs. */
module InputStrategy {
  import opened Base
  import opened Formatters

  datatype Kind =
    | BaseStrategy                           // InputStrategyBase
    | AddNewInput
    | AddNewInputAddNewOutput
    | KeepSingleOutput(addChild: bool)       // AddNewInputAddAndKeepSingleOutput
    | ForBlock(addChild: bool)               // AddNewInputAddNewOutputForBlock
    | ForNInputs(n: int, addChild: bool)     // AddNewInputAddNewOutputForNInputs
    | MissingFail
    | MissingAdd
    | MissingAddPair
    | MissingAddOne(addChild: bool)
    | MissingAddEach(addChild: bool)
    | MissingAddEachN(n: int, addChild: bool)

  /** A policy with its stored scope and its two name formatters.  The
      handlers' `scope` attribute may hold None; the strategies' never
      does. */
  datatype Strategy = Strategy(kind: Kind, scope: Option<int>, inputFmt: Formatter, outputFmt: Formatter)

  const DefaultInputFmt := Simple("input")
  const DefaultOutputFmt := Simple("output")

  /** What the `scope` setter may be given. */
  datatype ScopeArg = ScopeInt(i: int) | ScopeNone | ScopeOther

  /** The `scope` setter: an int is stored, None stores 0, anything else is
      refused. */
  function ScopeValue(v: ScopeArg): (r: Result<int>)
    ensures r.Err? <==> v.ScopeOther?
    ensures r.Err? ==> r.error == InitializationError
    ensures v.ScopeInt? ==> r == Ok(v.i)
    ensures v.ScopeNone? ==> r == Ok(0)
  {
    match v
    case ScopeInt(i) => Ok(i)
    case ScopeNone => Ok(0)
    case ScopeOther => Err(InitializationError)
  }

  /** Construction: the formatters go through `Formatter.from_value`; the
      "for N inputs" policies start at scope 1 when `init_with_no_inputs`,
      all others at 0. */
  function New(kind: Kind, inputFmt: FormatArg, outputFmt: FormatArg, initWithNoInputs: bool): (r: Result<Strategy>)
    ensures r.Err? <==> inputFmt.AOther? || outputFmt.AOther?
    ensures r.Ok? ==> r.value.kind == kind
    ensures r.Ok? ==> r.value.scope == Some(if initWithNoInputs && (kind.ForNInputs? || kind.MissingAddEachN?) then 1 else 0)
  {
    var fi :- FromValue(inputFmt);
    var fo :- FromValue(outputFmt);
    var scope := if initWithNoInputs && (kind.ForNInputs? || kind.MissingAddEachN?) then 1 else 0;
    Ok(Strategy(kind, Some(scope), fi, fo))
  }

  /** The installed policy of a node created without one. */
  const Default := Strategy(BaseStrategy, Some(0), DefaultInputFmt, DefaultOutputFmt)

  /** Which output the new input is tied to. */
  datatype OutAction =
    | NoOutput
    | NewOutput(name: string)   // `_add_output(name)`
    | LastOutput                // the last positional output

  /** A call's plan: the output step, whether the new input gets that output
      as its child output, the scope stored afterwards, and the name of the
      new input (computed after the output step, so an error in it comes
      after the output exists). */
  datatype Plan = Plan(out: OutAction, link: bool, scope: Option<int>, inputName: Result<string>)

  function OrElse(x: Option<int>, d: int): int
  {
    if x.Some? then x.value else d
  }

  /** The name of the new input: formatted from `idx`, else from the number
      of positional inputs. */
  function InputName(s: Strategy, idx: Option<int>, lenPos: nat): Result<string>
  {
    Format(s.inputFmt, OrElse(idx, lenPos))
  }

  /** A new output named after the current number of positional outputs. */
  function FreshOutput(s: Strategy, nOut: int): Result<OutAction>
  {
    var name :- Format(s.outputFmt, nOut);
    Ok(NewOutput(name))
  }

  /** The last output when there is one; `outputs[-1]` on none is an
      IndexError. */
  function Last(nOut: nat): Result<OutAction>
  {
    if nOut > 0 then Ok(LastOutput) else Err(IndexError)
  }

  /** `scope == self.scope != 0`. */
  predicate SameBlock(s: Strategy, scope: Option<int>)
  {
    scope == s.scope && s.scope != Some(0)
  }

  /** The output step of "one output per N inputs": the last output in the
      same block, a new one at a multiple of N, else none. */
  function EveryN(s: Strategy, n: int, scope: Option<int>, nOut: nat, lenPos: nat): (r: Result<OutAction>)
    ensures SameBlock(s, scope) ==> (r.Ok? <==> nOut > 0) && (r.Ok? ==> r.value.LastOutput?)
    ensures !SameBlock(s, scope) && n == 0 ==> r == Err(ZeroDivisionError)
    ensures r.Ok? && r.value.NewOutput? ==> !SameBlock(s, scope) && n != 0 && lenPos % n == 0
    ensures r.Ok? && r.value.NoOutput? <==> !SameBlock(s, scope) && n != 0 && lenPos % n != 0
  {
    if SameBlock(s, scope) then Last(nOut)
    else if n == 0 then Err(ZeroDivisionError)
    else if lenPos % n == 0 then FreshOutput(s, nOut)
    else Ok(NoOutput)
  }

  /** The plan of a call `strategy(idx, scope, idx_out)` on a node with
      `nOut` positional outputs and `lenPos` positional inputs.  This is the
      plan with the unbound output of `MissingInputAddEachN` repaired: when
      no output is chosen the input gets none. */
  function MakePlan(s: Strategy, idx: Option<int>, scope: Option<int>, idxOut: Option<int>, nOut: nat, lenPos: nat): (r: Result<Plan>)
    ensures (s.kind.BaseStrategy? || s.kind.MissingFail?) ==> r == Err(RuntimeError)
    ensures r.Ok? ==> r.value.inputName == InputName(s, idx, lenPos)
    ensures r.Ok? ==> (r.value.link ==> !r.value.out.NoOutput?)
    ensures r.Ok? && r.value.out.LastOutput? ==> nOut > 0
    // one new output per new input, always linked
    ensures (s.kind.AddNewInputAddNewOutput? || s.kind.MissingAddPair?) && r.Ok? ==>
              r.value.out.NewOutput? && r.value.link
    // inputs only
    ensures (s.kind.AddNewInput? || s.kind.MissingAdd?) ==> r.Ok? && r.value.out.NoOutput?
    // an output only when there is none yet
    ensures (s.kind.KeepSingleOutput? || s.kind.MissingAddOne?) && idxOut.None? && r.Ok? ==>
              (r.value.out.NewOutput? <==> nOut == 0) && !r.value.out.NoOutput?
    // a new output exactly when a new block starts, or when there is none
    ensures s.kind.ForBlock? && r.Ok? ==>
              (r.value.out.NewOutput? <==> (scope.Some? && scope != s.scope) || nOut == 0)
              && !r.value.out.NoOutput?
              && r.value.scope == (if scope.Some? && scope != s.scope then scope else s.scope)
    // a new output at each multiple of N, outside the current block
    ensures s.kind.ForNInputs? && r.Ok? ==>
              (r.value.out.NewOutput? <==> !SameBlock(s, scope) && s.kind.n != 0 && lenPos % s.kind.n == 0)
              && r.value.scope == s.scope
    ensures s.kind.MissingAddEach? && r.Ok? ==>
              (r.value.out.NewOutput? <==> !SameBlock(s, scope))
              && r.value.scope == (if SameBlock(s, scope) then s.scope else scope)
    ensures (s.kind.ForNInputs? || s.kind.MissingAddEachN?) && s.kind.n == 0 && !SameBlock(s, scope) ==>
              r == Err(ZeroDivisionError)
  {
    var lenName := InputName(s, idx, lenPos);
    match s.kind
    case BaseStrategy => Err(RuntimeError)
    case MissingFail => Err(RuntimeError)
    case AddNewInput => Ok(Plan(NoOutput, false, s.scope, lenName))
    case MissingAdd => Ok(Plan(NoOutput, false, s.scope, lenName))
    case AddNewInputAddNewOutput =>
      var out :- FreshOutput(s, OrElse(idxOut, nOut));
      Ok(Plan(out, true, s.scope, lenName))
    case MissingAddPair =>
      var out :- FreshOutput(s, OrElse(idxOut, nOut));
      Ok(Plan(out, true, s.scope, lenName))
    case KeepSingleOutput(addChild) =>
      var out :- KeepSingle(s, idxOut, nOut);
      Ok(Plan(out, addChild, s.scope, lenName))
    case MissingAddOne(addChild) =>
      var out :- KeepSingle(s, idxOut, nOut);
      Ok(Plan(out, addChild, s.scope, lenName))
    case ForBlock(addChild) =>
      if scope == s.scope || scope.None? then
        var out :- if nOut > 0 then Ok(LastOutput) else FreshOutput(s, nOut);
        Ok(Plan(out, addChild, s.scope, lenName))
      else
        var out :- FreshOutput(s, nOut);
        Ok(Plan(out, addChild, scope, lenName))
    case ForNInputs(n, addChild) =>
      var out :- EveryN(s, n, scope, nOut, lenPos);
      Ok(Plan(out, addChild && !out.NoOutput?, s.scope, lenName))
    case MissingAddEach(addChild) =>
      if SameBlock(s, scope) then
        var out :- Last(nOut);
        Ok(Plan(out, addChild, s.scope, lenName))
      else
        var out :- FreshOutput(s, nOut);
        Ok(Plan(out, addChild, scope, lenName))
    case MissingAddEachN(n, addChild) =>
      var out :- EveryN(s, n, scope, nOut, lenPos);
      var stored := if out.NewOutput? then scope else s.scope;
      Ok(Plan(out, addChild && !out.NoOutput?, stored, lenName))
  }

  /** The output step of "keep a single output". */
  function KeepSingle(s: Strategy, idxOut: Option<int>, nOut: nat): Result<OutAction>
  {
    if idxOut.Some? then FreshOutput(s, idxOut.value)
    else if nOut == 0 then FreshOutput(s, 0)
    else Ok(LastOutput)
  }

  /** `MissingInputAddEachN.__call__` as written: when the call neither
      continues the block nor sits at a multiple of N, `out` is never
      assigned, and passing it as the child output raises. */
  function MakePlanAsWritten(s: Strategy, idx: Option<int>, scope: Option<int>, idxOut: Option<int>, nOut: nat, lenPos: nat): (r: Result<Plan>)
    ensures !s.kind.MissingAddEachN? ==> r == MakePlan(s, idx, scope, idxOut, nOut, lenPos)
    ensures r.Ok? ==> r == MakePlan(s, idx, scope, idxOut, nOut, lenPos)
  {
    match s.kind
    case MissingAddEachN(n, addChild) =>
      if !SameBlock(s, scope) && n != 0 && lenPos % n != 0 && addChild then Err(UnboundLocalError)
      else MakePlan(s, idx, scope, idxOut, nOut, lenPos)
    case _ => MakePlan(s, idx, scope, idxOut, nOut, lenPos)
  }

  /** A handler for pairs of inputs per output, linking them: the first
      block of one input gets an output; the next block starts at an odd
      input count, and the code as written fails there, while the repaired
      plan adds the input without an output. */
  lemma AddEachNUnboundOutput()
    ensures var s := Strategy(MissingAddEachN(2, true), Some(1), DefaultInputFmt, DefaultOutputFmt);
            MakePlanAsWritten(s, None, Some(2), None, 1, 1) == Err(UnboundLocalError)
            && MakePlan(s, None, Some(2), None, 1, 1) == Ok(Plan(NoOutput, false, Some(1), Ok("input_01")))
  {
    assert Strings.Decimal(1) == "1";
    assert Strings.Pad2(1) == "01";
    assert Suffix(1) == "_01";
    assert "input" + "_01" == "input_01";
  }

  /** The repaired plan of "one output per N inputs" never fails once N is
      non-zero and the call continues a block that has an output, or starts
      a new one, with formatters that always succeed. */
  lemma EveryNPlanSucceeds(s: Strategy, idx: Option<int>, scope: Option<int>, idxOut: Option<int>, nOut: nat, lenPos: nat)
    requires s.kind.MissingAddEachN? || s.kind.ForNInputs?
    requires s.kind.n != 0 && (SameBlock(s, scope) ==> nOut > 0)
    requires !s.outputFmt.Sequential?
    ensures MakePlan(s, idx, scope, idxOut, nOut, lenPos).Ok?
  {
  }

  // ---------------------------------------------------------------------
  // Several calls in a row, counting the outputs and inputs they create.

  /** The counts after one call whose plan succeeds and whose input name is
      well formed: the stored scope, the positional outputs and inputs. */
  datatype Counts = Counts(s: Strategy, nOut: nat, lenPos: nat)

  function Step(c: Counts, scope: Option<int>): (r: Option<Counts>)
    ensures r.Some? ==> r.value.lenPos == c.lenPos + 1 && c.nOut <= r.value.nOut <= c.nOut + 1
    ensures r.Some? ==> r.value.s == c.s.(scope := r.value.s.scope)
  {
    match MakePlan(c.s, None, scope, None, c.nOut, c.lenPos)
    case Err(_) => None
    case Ok(p) =>
      if p.inputName.Err? then None
      else Some(Counts(c.s.(scope := p.scope), c.nOut + (if p.out.NewOutput? then 1 else 0), c.lenPos + 1))
  }

  /** Calls with the given scopes, one after the other, stopping at the
      first failure. */
  function Run(c: Counts, scopes: seq<Option<int>>): (r: Option<Counts>)
    ensures r.Some? ==> r.value.lenPos == c.lenPos + |scopes| && c.nOut <= r.value.nOut <= c.nOut + |scopes|
    decreases |scopes|
  {
    if scopes == [] then Some(c)
    else match Step(c, scopes[0])
      case None => None
      case Some(c') => Run(c', scopes[1..])
  }

  function Repeat(scope: Option<int>, k: nat): (r: seq<Option<int>>)
    ensures |r| == k && forall j :: 0 <= j < k ==> r[j] == scope
  {
    if k == 0 then [] else [scope] + Repeat(scope, k - 1)
  }

  /** A call continuing the current block reuses the last output. */
  lemma ForBlockReuse(c: Counts, b: int)
    requires c.s.kind.ForBlock? && c.s.scope == Some(b) && c.nOut > 0
    requires !c.s.inputFmt.Sequential?
    ensures Step(c, Some(b)) == Some(Counts(c.s, c.nOut, c.lenPos + 1))
  {
    var p := MakePlan(c.s, None, Some(b), None, c.nOut, c.lenPos);
    assert p.Ok? && p.value.out == LastOutput && p.value.scope == c.s.scope;
  }

  /** Inside one `>>` block (all calls carry the same scope), only the first
      call of a new block creates an output. */
  lemma {:induction false} ForBlockSameScope(c: Counts, b: int, k: nat)
    requires c.s.kind.ForBlock? && c.s.scope == Some(b) && c.nOut > 0
    requires !c.s.inputFmt.Sequential?
    ensures Run(c, Repeat(Some(b), k)) == Some(Counts(c.s, c.nOut, c.lenPos + k))
    decreases k
  {
    if k > 0 {
      ForBlockReuse(c, b);
      ForBlockSameScope(Counts(c.s, c.nOut, c.lenPos + 1), b, k - 1);
      RunChain(c, Some(b), k, Counts(c.s, c.nOut, c.lenPos + 1), Counts(c.s, c.nOut, c.lenPos + k));
    }
  }

  /** A call with a new scope opens a block: it creates an output and
      records the scope. */
  lemma ForBlockNew(c: Counts, b: int)
    requires c.s.kind.ForBlock? && c.s.scope != Some(b)
    requires !c.s.inputFmt.Sequential? && !c.s.outputFmt.Sequential?
    ensures Step(c, Some(b)) == Some(Counts(c.s.(scope := Some(b)), c.nOut + 1, c.lenPos + 1))
  {
  }

  /** k repeated calls are one step followed by the other k - 1. */
  lemma RunChain(c: Counts, x: Option<int>, k: nat, c1: Counts, last: Counts)
    requires k > 0 && Step(c, x) == Some(c1) && Run(c1, Repeat(x, k - 1)) == Some(last)
    ensures Run(c, Repeat(x, k)) == Some(last)
  {
    assert Repeat(x, k)[1..] == Repeat(x, k - 1);
  }

  /** A `>>` block of k >= 1 outputs with a new scope creates exactly one
      output and k inputs, and records the block's scope. */
  lemma ForBlockOneOutputPerBlock(c: Counts, b: int, k: nat)
    requires c.s.kind.ForBlock? && c.s.scope != Some(b) && k >= 1
    requires !c.s.inputFmt.Sequential? && !c.s.outputFmt.Sequential?
    ensures Run(c, Repeat(Some(b), k)) == Some(Counts(c.s.(scope := Some(b)), c.nOut + 1, c.lenPos + k))
  {
    var c1 := Counts(c.s.(scope := Some(b)), c.nOut + 1, c.lenPos + 1);
    ForBlockNew(c, b);
    ForBlockRest(c, b, k);
    RunChain(c, Some(b), k, c1, Counts(c.s.(scope := Some(b)), c.nOut + 1, c.lenPos + k));
  }

  /** The calls after the one that opened the block add inputs only. */
  lemma ForBlockRest(c: Counts, b: int, k: nat)
    requires c.s.kind.ForBlock? && k >= 1
    requires !c.s.inputFmt.Sequential?
    ensures Run(Counts(c.s.(scope := Some(b)), c.nOut + 1, c.lenPos + 1), Repeat(Some(b), k - 1)) ==
            Some(Counts(c.s.(scope := Some(b)), c.nOut + 1, c.lenPos + k))
  {
    ForBlockSameScope(Counts(c.s.(scope := Some(b)), c.nOut + 1, c.lenPos + 1), b, k - 1);
  }

  /** N calls outside any block, starting at a multiple of N inputs, create
      exactly one output: the first call does, the others do not. */
  lemma {:induction false} ForNInputsBlock(c: Counts, n: nat, q: nat, j: nat)
    requires c.s.kind.ForNInputs? && c.s.kind.n == n && n > 0
    requires c.s.scope != None
    requires !c.s.inputFmt.Sequential? && !c.s.outputFmt.Sequential?
    requires 0 < j <= n && c.lenPos == n * q + (n - j)
    ensures Run(c, Repeat(None, j)) == Some(Counts(c.s, c.nOut + (if j == n then 1 else 0), c.lenPos + j))
    decreases j
  {
    ForNInputsStep(c, n, q, j);
    var c1 := Counts(c.s, c.nOut + (if j == n then 1 else 0), c.lenPos + 1);
    if j > 1 {
      ForNInputsBlock(c1, n, q, j - 1);
    } else {
      assert Run(c1, Repeat(None, 0)) == Some(c1);
    }
    RunChain(c, None, j, c1, Counts(c.s, c.nOut + (if j == n then 1 else 0), c.lenPos + j));
  }

  /** One call outside any block creates an output exactly when the node
      has a multiple of N positional inputs. */
  lemma ForNInputsStep(c: Counts, n: nat, q: nat, j: nat)
    requires c.s.kind.ForNInputs? && c.s.kind.n == n && n > 0
    requires c.s.scope != None
    requires !c.s.inputFmt.Sequential? && !c.s.outputFmt.Sequential?
    requires 0 < j <= n && c.lenPos == n * q + (n - j)
    ensures Step(c, None) == Some(Counts(c.s, c.nOut + (if j == n then 1 else 0), c.lenPos + 1))
  {
    DivModUnique(n, q, n - j);
    assert !SameBlock(c.s, None);
  }

  /** N calls outside any block from a multiple of N inputs on create one
      output. */
  lemma ForNInputsFullBlock(c: Counts, n: nat)
    requires c.s.kind.ForNInputs? && c.s.kind.n == n && n > 0
    requires c.s.scope != None
    requires !c.s.inputFmt.Sequential? && !c.s.outputFmt.Sequential?
    requires c.lenPos % n == 0
    ensures Run(c, Repeat(None, n)) == Some(Counts(c.s, c.nOut + 1, c.lenPos + n))
  {
    ForNInputsBlock(c, n, c.lenPos / n, n);
  }

  /** Starting from no inputs, q·N calls outside any block create exactly q
      outputs: one for every N inputs. */
  lemma ForNInputsCount(c: Counts, n: nat, q: nat)
    requires c.s.kind.ForNInputs? && c.s.kind.n == n && n > 0
    requires c.s.scope != None
    requires !c.s.inputFmt.Sequential? && !c.s.outputFmt.Sequential?
    requires c.lenPos == 0
    ensures Run(c, Repeat(None, n * q)) == Some(Counts(c.s, c.nOut + q, n * q))
  {
    BlocksCount(c, n, q);
    BlocksProduct(n, q);
  }

  /** The number of inputs in `q` blocks of `n`. */
  function Blocks(n: nat, q: nat): nat
  {
    if q == 0 then 0 else Blocks(n, q - 1) + n
  }

  lemma {:induction false} BlocksProduct(n: nat, q: nat)
    ensures Blocks(n, q) == n * q
  {
    if q > 0 {
      BlocksProduct(n, q - 1);
      MulPred(n, q);
    }
  }

  lemma {:induction false} BlocksCount(c: Counts, n: nat, q: nat)
    requires c.s.kind.ForNInputs? && c.s.kind.n == n && n > 0
    requires c.s.scope != None
    requires !c.s.inputFmt.Sequential? && !c.s.outputFmt.Sequential?
    requires c.lenPos == 0
    ensures Run(c, Repeat(None, Blocks(n, q))) == Some(Counts(c.s, c.nOut + q, Blocks(n, q)))
    decreases q
  {
    if q > 0 {
      BlocksCount(c, n, q - 1);
      BlocksStep(c, n, q - 1);
    }
  }

  /** The count after k blocks extends to k + 1 blocks. */
  lemma BlocksStep(c: Counts, n: nat, k: nat)
    requires c.s.kind.ForNInputs? && c.s.kind.n == n && n > 0
    requires c.s.scope != None
    requires !c.s.inputFmt.Sequential? && !c.s.outputFmt.Sequential?
    requires Run(c, Repeat(None, Blocks(n, k))) == Some(Counts(c.s, c.nOut + k, Blocks(n, k)))
    ensures Run(c, Repeat(None, Blocks(n, k + 1))) == Some(Counts(c.s, c.nOut + k + 1, Blocks(n, k + 1)))
  {
    BlockAfter(c, n, k);
    CountStep(c, n, k);
  }

  /** The block of N calls after k full blocks creates one output. */
  lemma BlockAfter(c: Counts, n: nat, k: nat)
    requires c.s.kind.ForNInputs? && c.s.kind.n == n && n > 0
    requires c.s.scope != None
    requires !c.s.inputFmt.Sequential? && !c.s.outputFmt.Sequential?
    ensures Run(Counts(c.s, c.nOut + k, Blocks(n, k)), Repeat(None, n)) ==
            Some(Counts(c.s, c.nOut + k + 1, Blocks(n, k + 1)))
  {
    BlocksMod(n, k);
    ForNInputsFullBlock(Counts(c.s, c.nOut + k, Blocks(n, k)), n);
  }

  lemma BlocksMod(n: nat, k: nat)
    requires n > 0
    ensures Blocks(n, k) % n == 0
  {
    BlocksProduct(n, k);
    DivModUnique(n, k, 0);
  }

  /** A run of k blocks followed by one more block is a run of k + 1 blocks. */
  lemma CountStep(c: Counts, n: nat, k: nat)
    requires Run(c, Repeat(None, Blocks(n, k))) == Some(Counts(c.s, c.nOut + k, Blocks(n, k)))
    requires Run(Counts(c.s, c.nOut + k, Blocks(n, k)), Repeat(None, n)) ==
             Some(Counts(c.s, c.nOut + k + 1, Blocks(n, k + 1)))
    ensures Run(c, Repeat(None, Blocks(n, k + 1))) == Some(Counts(c.s, c.nOut + k + 1, Blocks(n, k + 1)))
  {
    var m := Blocks(n, k);
    RunThen(c, Repeat(None, m), Repeat(None, n), Counts(c.s, c.nOut + k, m), Counts(c.s, c.nOut + k + 1, Blocks(n, k + 1)));
    RepeatSum(None, m, n);
  }

  lemma MulPred(n: nat, q: nat)
    requires q > 0
    ensures n * (q - 1) + n == n * q
  {
  }

  /** Two runs in a row are one run over the joined calls. */
  lemma RunThen(c: Counts, a: seq<Option<int>>, b: seq<Option<int>>, mid: Counts, last: Counts)
    requires Run(c, a) == Some(mid) && Run(mid, b) == Some(last)
    ensures Run(c, a + b) == Some(last)
  {
    RunAppend(c, a, b);
  }

  lemma RepeatSum(scope: Option<int>, a: nat, b: nat)
    ensures Repeat(scope, a) + Repeat(scope, b) == Repeat(scope, a + b)
  {
    var r := Repeat(scope, a) + Repeat(scope, b);
    assert forall j :: 0 <= j < a + b ==> r[j] == scope;
  }

  /** Running two sequences of calls is running their concatenation. */
  lemma {:induction false} RunAppend(c: Counts, a: seq<Option<int>>, b: seq<Option<int>>)
    requires Run(c, a).Some?
    ensures Run(c, a + b) == Run(Run(c, a).value, b)
    decreases |a|
  {
    if a != [] {
      var c' := Step(c, a[0]).value;
      assert (a + b)[0] == a[0];
      assert (a + b)[1..] == a[1..] + b;
      assert Run(c, a) == Run(c', a[1..]);
      assert Run(c, a + b) == Run(c', a[1..] + b);
      RunAppend(c', a[1..], b);
    } else {
      assert a + b == b;
    }
  }
}
