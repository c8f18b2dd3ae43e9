# dagflow core in Dafny

dagflow is a lazy dataflow-graph engine. Nodes with ordered inputs and outputs are wired into a
directed acyclic graph. The graph is then closed: types are checked, buffers are allocated and
the nodes are frozen. Results are read afterwards, and a node is re-evaluated only when a taint
flag says that something upstream changed. This project models the engine's core as Dafny
values, functions and methods, and proves what that core promises about them.

What is modelled, module by module:

- `Base` (`base.dfy`): `Option`, `Result` and `Outcome` wrappers and the exception kinds the engine raises.
- `Edges` and `NodeFlags`: the ordered port container (`EdgeContainer`: positional, keyword and non-positional dictionaries) and the node's flag record (`FlagsDescriptor`).
- `DataDescriptor`: element type, shape, axis edges and axis nodes of an output.
- `Formatters`, `Strings` and `InputStrategy`: port naming (`SimpleFormatter`, `SequentialFormatter`) and the missing-input handlers that decide which input and output a new connection creates.
- `Links`, `Ports` and `Wiring`: the network of nodes, inputs and outputs as number-addressed records; the allocation of output and input buffers; and `connect`, including the reverse links (`set_child_output`).
- `Reach`, `TaintWalk`, `InvalidWalk`, `TypeWalk`, `UpdateWalk`, `AllocWalk`, `CloseWalk` and `OpenWalk`: the recursive walks over an acyclic net, namely taint propagation, invalidation, the type pass, lazy evaluation (`touch`/`eval`), allocation, close and open. Acyclicity is a ranking of the nodes that every link respects.
- `NodeOps`, `OutputData`, `NodeBuild` and `NodeBase`: a node's own operations (`data`, `touch`, `eval`, `seti`, freezing), node construction with its input strategy, and the `>>`/`<<` operators.
- `Engine` (`engine.dfy`): the `Dag` class, one arena object holding the node, input and output records and the flags. Its methods update these fields in place and are proved against the walk functions.
- `Graphs`: the `Graph` class, with node registration, `close` (type pass, then allocation pass, then closing the nodes) and `open`; also the `Contexts` stack of current graphs.
- `InputChecks`, `CopyTypes` and `AxesChecks`: the type functions that check inputs and copy descriptors, shapes and axes.
- `SegmentIndex`: the segment search of the interpolator.
- `Integrator`: the summation kernels of the integrator core (any integer orders, each bin sliced as Python slices), its orders check, its type function and its taint guard.
- `Parameter`: the `Parameter` class, with its value stack (`push`/`pop`) and its context manager.
- `Labels`: the `Label` class and its helpers (mask matching, index dictionaries, list-appending mappings).
- `LoadParameters`: the configuration check and the value processors of the parameter loader.
- `GIndex` and `GNIndex`: one-dimensional and n-dimensional indices, with their name dictionary, `sort`, `sub`, `union`, `rest`, `split`, the Cartesian product of their instances, and formatting.
- `Profiling`: the graph-gathering helpers of the profiler.

Numbers stand in for node, input and output objects. Floating-point arrays are reals or integers wherever only their shape or their identity matters.

Where the code as written departs from what it evidently intends (see "## Findings"), both versions are modelled, and the engine, graph, strategy and index layers run the corrected one. Each member that inherits a corrected definition is named under "## Left out".

## Model

| member | source | states |
|---|---|---|
| Edges.EmptyValid | dagflow/core/edges.py:23-31 | a new, empty container satisfies the container invariant (well-formed ordered dictionaries; every keyword name known to all edges; every known name positional or non-positional) |
| Edges.LenPosCounts | dagflow/core/edges.py:182-186 | `len_pos` (and `len`) is the size of the positional list: an int key indexes the container exactly when it lies in `[-len_pos, len_pos)`, and `[:]` gives `len_pos` items, the positional list in order |
| Edges.Counts | dagflow/core/edges.py:188-194 | in a valid container `len_kw` and `len_all` count the names of the keyword and all-edges dictionaries, and `len_kw <= len_all` |
| Edges.ContainsNames | dagflow/core/edges.py:261-262 | `name in container` holds exactly for the names of all edges (in insertion order), every keyword name among them |
| Edges.Add | dagflow/core/edges.py:37-80 | RuntimeError when the port is neither positional nor keyword, when a positional port is merged, when the name is empty, or when the name is already known and not merged into a keyword entry; on success the name is known, a positional port is appended to the positional list, a non-positional one goes to the non-positional dictionary and leaves the list alone, and a keyword entry holds the port |
| Edges.MergeAccumulates | dagflow/core/edges.py:68-72 | merging under a keyword name stores the ports in call order as a tuple: a new name starts a one-port tuple, a tuple grows by the new port, and merging onto a single port raises TypeError |
| Edges.AddKeepsValid | dagflow/core/edges.py:65-80 | a successful add keeps the container invariant, and a new name adds one to `len_all`, one to `len_pos` when positional and one to `len_kw` when keyword |
| Edges.Insert | dagflow/core/edges.py:65-79 | the updates of an add put the new name among all edges and no other |
| Edges.InsertKeepsValid | dagflow/core/edges.py:68-79 | the dictionary and list updates of an add keep the container invariant |
| Edges.AddEach | dagflow/core/edges.py:46-54 | adding an iterable checks the positional/keyword/merge flags first (RuntimeError) and, when every port is added, grows the positional list by the number of ports |
| Edges.MakePositional | dagflow/core/edges.py:82-105 | RuntimeError for an unknown keyword name, a limb already positional or an index outside the list (an index equal to the length appends); otherwise the limb is returned, appended or written at the index, recorded as positional and removed from the non-positional dictionary (a name that was not there raises KeyError after the list was changed); keyword and all-edges dictionaries are unchanged |
| Edges.Remove | dagflow/core/edges.py:104 | `del d[k]` removes exactly that key |
| Edges.MakePositionalKeepsValid | dagflow/core/edges.py:82-105 | `make_positional` keeps the container invariant |
| Edges.Replace | dagflow/core/edges.py:264-278 | CriticalError iff the old limb is neither a keyword value nor in the positional list; otherwise every occurrence in both is replaced and nothing else changes |
| Edges.ReplaceKeepsValid | dagflow/core/edges.py:264-278 | `_replace` keeps the container invariant |
| Edges.GetItem | dagflow/core/edges.py:118-125 | a str key looks up the keyword dictionary (KeyError iff absent); an int key indexes the positional list, negative from the end (IndexError iff out of range); a slice fails exactly for step 0 (ValueError) and otherwise gives the sliced list, step included; a sequence gives one item per key; any other key raises TypeError |
| Edges.PySlice | dagflow/core/edges.py:122 | a slice of any non-zero step is never longer than the list and holds only items of the list; its exact length and order are stated by Edges.SliceItems |
| Edges.DownBound | dagflow/core/edges.py:122 | a bound of a negative-step slice lies in [-1, len - 1]; one inside the list is kept and a negative one counts from the end |
| Edges.Stride | dagflow/core/edges.py:122 | item k of a stepped walk is item `i + k * step` of the list, inside it, and the walk has no more items than the distance to the stop; its exact length is stated by Edges.StrideLength |
| Edges.StrideOne | dagflow/core/edges.py:122 | a walk of step one is the contiguous run from the start to the stop, or nothing |
| Edges.UnitStep | dagflow/core/edges.py:122 | a slice without a step is the slice of step one: the run between the normalised bounds, and the whole list for `[:]` |
| Edges.StrideBack | dagflow/core/edges.py:122 | a walk of step minus one has one item per position between the start and the stop |
| Edges.Reversed | dagflow/core/edges.py:122 | `[::-1]` is the list reversed |
| Edges.StepsCover | dagflow/core/edges.py:122 | a walk over a positive distance takes the fewest steps of the step's length that cover the distance |
| Edges.StrideCount | dagflow/core/edges.py:122 | a stepped walk takes one item per step of the step's length that it needs to reach the stop |
| Edges.StrideLength | dagflow/core/edges.py:122 | a walk of positive step over `i < stop` takes `(stop - i + step - 1) / step` items, and one of negative step over `stop < i` takes `(i - stop - step - 1) / -step` items, as `len(range(i, stop, step))` counts them |
| Edges.SliceItems | dagflow/core/edges.py:122 | `s[start:stop:step]` has as many items as `range(lo, hi, step)` over the bounds normalised for the step's direction, and item k is item `lo + k * step` of the list |
| Edges.SliceExamples | dagflow/core/edges.py:122 | `[0, 1, 2, 3, 4][::2]` is `[0, 2, 4]` and `[0, 1, 2, 3, 4][3::-2]` is `[3, 1]` |
| Base.SliceBound | dagflow/core/edges.py:122 | a bound of a positive-step slice lies in [0, len]; one inside the list is kept and a negative one counts from the end |
| Edges.Get | dagflow/core/edges.py:151-155 | `get` returns what indexing returns, and the default whenever indexing raises |
| Edges.KeyOf | dagflow/core/edges.py:166-171 | `key` succeeds iff the limb is a keyword value, and then returns the first keyword name in insertion order that holds it, even when several names hold it; otherwise ValueError |
| Edges.KeyOfWhenPresent | dagflow/core/edges.py:166-171 | `key` succeeds iff some keyword name in insertion order holds the limb |
| Edges.IndexOf | dagflow/core/edges.py:173-174 | `index` succeeds iff the limb is positional, and returns its first position; otherwise ValueError |
| Edges.Iter | dagflow/core/edges.py:222-259 | RuntimeError for `exclude_pos` without `include_kw`; the full slice yields the positional list, all edges, or the non-positional edges as the two flags say; any other slice yields the sliced positional list, or ValueError for step 0; an unsupported key type raises CriticalError |
| Edges.IterSub | dagflow/core/edges.py:246-257 | a sequence key yields only positional or keyword entries, and fails only with IndexError, KeyError, ValueError (a slice of step 0) or CriticalError |
| NodeFlags.InitialFlags | dagflow/core/flags_descriptor.py:52-60 | a new node is tainted with tainted types, and is not frozen-tainted, invalid, closed, allocated or awaiting reallocation or post-allocation; `frozen` is the node's own option |
| NodeFlags.InvalidateFlags | dagflow/core/flags_descriptor.py:82-86 | `invalidate(v)` sets `invalid` to v and leaves the node tainted, unfrozen and not frozen-tainted, touching no other flag; on a node already in that state it changes nothing |
| NodeFlags.FreezeFlags | dagflow/core/flags_descriptor.py:98-100 | `freeze` sets `frozen`, clears `frozen_tainted` and keeps every other flag |
| NodeFlags.TypeTaintFlags | dagflow/core/flags_descriptor.py:114-119 | the node's own part of `taint_type`: types tainted, node tainted and unfrozen, every other flag kept |
| NodeFlags.TypesUpdatedFlags | src/dagflow/core/node.py:622-624 | after the type function runs, types are no longer tainted and the node needs reallocation; every other flag kept |
| NodeFlags.AllocatedFlags | src/dagflow/core/node.py:645-646 | after an allocation the node is allocated and no longer needs reallocation; every other flag kept |
| DataDescriptor.New | dagflow/core/data_descriptor.py:39-55 | the constructor keeps dtype and shape, turns absent edges and meshes into empty tuples, and marks both as inherited |
| DataDescriptor.Dim | dagflow/core/data_descriptor.py:78-81 | `dim` is the number of axes when there is a shape; without one `len(None)` raises TypeError |
| DataDescriptor.Size | dagflow/core/data_descriptor.py:83-86 | `size` is defined iff there is a shape, and the 0-d shape has size 1 |
| DataDescriptor.ProdZeroIff | dagflow/core/data_descriptor.py:83-86 | the size is zero exactly when some axis has length zero |
| DataDescriptor.ProdAppend | dagflow/core/data_descriptor.py:83-86 | the size of concatenated shapes is the product of their sizes |
| DataDescriptor.Adopt | dagflow/core/data_descriptor.py:123-124 | after taking an array's dtype and shape the descriptor is `consistent_with` that array, and its axes and inheritance flags are unchanged |
| DataDescriptor.ConsistentIsAdopted | dagflow/core/data_descriptor.py:123-124 | `consistent_with` holds exactly when the descriptor already has the array's shape and dtype, so adopting the array changes nothing; two arrays consistent with one descriptor share shape and dtype |
| DataDescriptor.AxisLabel | dagflow/core/data_descriptor.py:96-121 | with edges set and edges (or any) requested, the label comes from the edges output at the index (negative from the end) and an index out of range raises RuntimeError; otherwise from the mesh output when meshes are set and allowed; None exactly when neither applies |
| Formatters.FromString | dagflow/inputhandler.py:18-20 | a string holding `{` is kept as a template; any other string becomes a simple formatter on that base |
| Formatters.FromValue | dagflow/inputhandler.py:26-37 | a formatter is kept, a string goes through `from_string`, a sequence becomes a sequential formatter starting at 0, anything else raises InitializationError |
| Formatters.Format | dagflow/inputhandler.py:52-78 | a simple formatter returns the base alone for numbers up to 0 and the base with a suffix otherwise; a sequential formatter fails iff it has no bases (ZeroDivisionError) or the number is below the start index (ValueError), and otherwise names the number after the base at `(num - start) mod len` |
| Formatters.SimpleFormatInjective | dagflow/inputhandler.py:52-53 | a simple formatter never gives two non-negative numbers the same name |
| Formatters.SequentialCycle | dagflow/inputhandler.py:68-78 | number `start + g*len + i` is named after base i, with the suffix `_gg` from the second cycle on |
| Formatters.SequentialShape | dagflow/inputhandler.py:68-78 | every accepted number decomposes into a place in the cycle and a cycle count that determine its name |
| Formatters.SequentialFormatInjective | dagflow/inputhandler.py:68-78 | with distinct bases free of underscores, distinct accepted numbers get distinct names |
| Strings.Pad2 | dagflow/inputhandler.py:48-53 | the default number format `_{:02d}` pads numbers below ten to two characters with a leading zero and renders non-negative numbers as digits only |
| Strings.IntToStr | dagflow/inputhandler.py:53 | `str` of an integer is never empty |
| Strings.Replace | dagflow/core/labels.py:121 | `str.replace` with a pattern equal to its replacement changes nothing, and one of the same non-zero length keeps the length of the text |
| Strings.Pad2Injective | dagflow/inputhandler.py:48-53 | distinct non-negative numbers get distinct zero-padded renderings |
| InputStrategy.ScopeValue | dagflow/core/input_strategy.py:31-38 | the `scope` setter stores an int as given and None as 0, and refuses anything else with InitializationError |
| InputStrategy.New | dagflow/core/input_strategy.py:65-82 | construction fails iff a formatter argument is not a formatter, string or sequence; the "for N inputs" policies start at scope 1 with `init_with_no_inputs`, every other policy at 0 |
| InputStrategy.MakePlan | dagflow/core/input_strategy.py:84-215 | the base policy (and the failing handler) raise RuntimeError; the new input is named from `idx` or the number of positional inputs; add-input-and-output always makes a linked new output; add-input makes none; keep-single makes an output only when there is none; for-block makes one exactly when a new block starts or there is none and stores the new scope; for-N-inputs makes one exactly outside the current block at a multiple of N (N = 0 raises ZeroDivisionError); a linked input always has an output |
| InputStrategy.MakePlanAsWritten | dagflow/inputhandler.py:255-266 | `MissingInputAddEachN` as written agrees with the repaired plan whenever it succeeds, and every other policy is unchanged |
| InputStrategy.AddEachNUnboundOutput | dagflow/inputhandler.py:255-266 | with N = 2 and linking on, a call that starts a new block at an odd input count raises UnboundLocalError as written, while the repaired plan adds the input without an output |
| InputStrategy.EveryNPlanSucceeds | dagflow/core/input_strategy.py:203-215 | with N non-zero, a call that continues a block that has an output, or starts a new one, always has a plan |
| InputStrategy.ForBlockReuse | dagflow/core/input_strategy.py:158-166 | a call continuing the current block reuses the last output and adds one input |
| InputStrategy.ForBlockSameScope | dagflow/core/input_strategy.py:158-175 | k calls inside one block add k inputs and no output |
| InputStrategy.ForBlockOneOutputPerBlock | dagflow/core/input_strategy.py:158-175 | a block of k >= 1 calls under a new scope adds exactly one output and k inputs, and stores the new scope |
| InputStrategy.ForNInputsBlock | dagflow/core/input_strategy.py:203-215 | j calls outside any block, starting j inputs before a multiple of N, add j inputs and one output iff j = N |
| InputStrategy.EveryN | dagflow/core/input_strategy.py:203-215 | inside the current block the last output is reused, and only when there is one; outside it N = 0 raises ZeroDivisionError, a positional count that N divides gets a new output, any other count none |
| InputStrategy.ForNInputsCount | dagflow/core/input_strategy.py:203-215 | starting from no inputs, q·N calls outside any block add exactly q outputs |
| InputStrategy.RunAppend | dagflow/core/input_strategy.py:84-93 | running two sequences of calls one after the other is running their concatenation |
| InputStrategy.Step | dagflow/core/input_strategy.py:158-215 | one successful call adds exactly one positional input and at most one output, and changes the strategy only in its scope |
| InputStrategy.Run | dagflow/core/input_strategy.py:158-215 | k successful calls add exactly k positional inputs and at most k outputs |
| InputStrategy.Repeat | dagflow/core/node_base.py:123-143 | the scopes of k calls inside one block: k copies of the same scope |
| Ports.SetOwnData | src/dagflow/core/input.py:103-121 | `set_own_data` raises ClosedGraphError on a closed node and AllocationError when the input already holds data, and succeeds exactly otherwise; then the input holds the array, its descriptor is consistent with it, edges and meshes default to empty, and the buffer flag is as given |
| Ports.NewInput | src/dagflow/core/input.py:61-84 | an array given with `allocatable`, `dtype` or `shape` raises InitializationError; without an array the input holds a descriptor of the given dtype and shape; with one the input owns it and is consistent with it |
| Ports.InAlloc | src/dagflow/core/input.py:238-256 | `allocate` fails (AllocationError) exactly for an allocatable input without consistent data whose shape or dtype is missing (or whose keyword arguments numpy refuses); otherwise a non-allocatable input or one with consistent data is left alone (False), and else a zero buffer of the descriptor's shape and dtype is installed (True); earlier buffers keep their dtype and shape |
| Ports.InAllocAgain | src/dagflow/core/input.py:238-256 | allocating an input a second time changes nothing and reports no reassignment |
| Ports.SetData | src/dagflow/core/output.py:273-301 | `_set_data` raises ClosedGraphError on a closed node and AllocationError when reallocation ends up forbidden (an owned buffer, the argument, or the output's own flag) while an allocating input is attached; otherwise the output holds the array, its descriptor is consistent with it, the forbid flag accumulates, and the node's types are tainted iff the old descriptor disagreed with the array |
| Ports.NewOutput | src/dagflow/core/output.py:93-104 | without an array the output is allocatable unless told otherwise and owns no buffer; with one it owns it unless told otherwise, is allocatable exactly when it does not own it, holds it consistently, and raises InitializationError when `allocatable`, `dtype` or `shape` were also given |
| Ports.AllocZeros | src/dagflow/core/output.py:333-349 | consistent data are kept (False); missing shape or dtype raises AllocationError; otherwise a zero buffer of the descriptor's shape and dtype is installed as an owned buffer (True) |
| Ports.AdoptInput | src/dagflow/core/output.py:317-331 | an allocating input's data inconsistent with the descriptor raise AllocationError; otherwise the output's old contents are broadcast into the input's array (with the errors of `CopyInto`) and the output adopts it, reporting a reassignment |
| Ports.CopyInto | src/dagflow/core/output.py:328-329 | `idata[:] = data` raises IndexError for a 0-d destination and otherwise succeeds iff the old data broadcast into the destination's shape (else ValueError); it then overwrites exactly the destination's contents with the broadcast values |
| Ports.BroadcastsIntoItself | src/dagflow/core/output.py:329 | every shape broadcasts into itself, and the scalar shape into every shape |
| Ports.BroadcastsIntoInit | src/dagflow/core/output.py:329 | broadcasting is decided axis by axis: when data fit, their last axis is 1 or the destination's last axis (1 when the destination has no axes), and the axes before it fit the destination's axes before its last |
| Ports.BroadcastsIntoScalar | src/dagflow/core/output.py:329 | data that broadcast into no axes at all hold exactly one value |
| Ports.SourceIndexBound | src/dagflow/core/output.py:329 | broadcasting reads every destination position from a position inside the old data |
| Ports.SourceIndexSame | src/dagflow/core/output.py:329 | between arrays of one shape, broadcasting reads each position from the same position |
| Ports.Fill | src/dagflow/core/output.py:329 | the broadcast contents have one value per destination element |
| Ports.FillReads | src/dagflow/core/output.py:329 | for old data that fit, each broadcast value is the old data's value at its broadcast position, which lies inside the old data |
| Ports.FillSame | src/dagflow/core/output.py:329 | old data of the destination's shape are copied unchanged |
| Ports.FillScalar | src/dagflow/core/output.py:245 | one value with no axes broadcasts into every element of any shape |
| Ports.Zeros | src/dagflow/core/input.py:252 | numpy `zeros(shape, dtype)` has that dtype and shape, one value per element, and every value 0 (also the output's buffer at src/dagflow/core/output.py:344) |
| Ports.CopySameShape | src/dagflow/core/output.py:328-329 | old data of the destination's shape replace its contents value for value |
| Ports.CopyKeepsShapes | src/dagflow/core/output.py:328-329 | a copy keeps the number of arrays and every array's shape and dtype |
| Ports.CopyExamples | src/dagflow/core/output.py:328-329 | one value fills a buffer of three; a 0-d buffer raises IndexError; two values into three raise ValueError |
| Ports.OutAllocWith | src/dagflow/core/output.py:309-349 | a non-allocatable output changes nothing; an allocatable one that succeeds holds consistent data; existing buffers keep their dtype and shape; errors are AllocationError, ClosedGraphError, ValueError or IndexError |
| Ports.OutAllocAsWritten | src/dagflow/core/output.py:309-349 | `Output.allocate` as written agrees with the intended allocation whenever it succeeds; where they differ it is an AllocationError of an allocatable output with an allocating input |
| Ports.OutAlloc | src/dagflow/core/output.py:309-349 | the same guarantees for `allocate` when the allocating input allocates its own buffer |
| Ports.AllocatingInputFails | src/dagflow/core/output.py:314-316 | as written, an allocatable output whose allocating input still needs a buffer always fails with AllocationError, although the input's own allocation succeeds |
| Ports.AllocatingInputExample | src/dagflow/core/output.py:314-316 | an empty output with an allocating input of shape (3,) fails as written and succeeds as intended |
| Ports.OutAllocAgain | src/dagflow/core/output.py:309-349 | allocating an output a second time leaves output, allocating input and buffers as they are |
| Ports.AdoptKeepsInput | src/dagflow/core/output.py:327-330 | an input holding consistent data still does after the output copied into its array |
| Reach.Down | dagflow/core/flags_descriptor.py:102-112 | the nodes a downward walk from `n` can reach through positional outputs and their child inputs always include `n` and are nodes of the graph |
| Reach.Up | dagflow/core/flags_descriptor.py:92-96 | the nodes an upward walk through the connected parents of every input can reach are nodes of the graph |
| Reach.DownAbove | dagflow/core/flags_descriptor.py:102-112 | every node reached below `n` is ranked strictly above it, so a downward walk never returns to its start and terminates |
| Reach.UpBelow | dagflow/core/flags_descriptor.py:92-96 | every node reached above `n` is ranked strictly below it, so an upward walk terminates |
| TaintWalk.Touched | src/dagflow/core/node.py:522-526 | `_touch` adds one call and clears the node's taint, leaving every other node's counters and flags in place |
| TaintWalk.TaintNode | src/dagflow/core/node.py:543-563 | `taint` keeps the flags and counters well formed over the graph's nodes |
| TaintWalk.TaintKids | dagflow/core/flags_descriptor.py:102-112 | the loop over the positional outputs keeps the flags and counters well formed |
| TaintWalk.TaintInputs | src/dagflow/core/output.py:357-369 | the loop over an output's child inputs keeps the flags and counters well formed |
| TaintWalk.GrowsTrans | src/dagflow/core/node.py:543-574 | the monotone-walk relation composes, so successive taints keep its guarantees |
| TaintWalk.TaintNodeGrows | src/dagflow/core/node.py:543-563 | a taint never lowers a call count, never clears `frozen_tainted`, evaluates a node only when it is immediate or the computation is forced, leaves every tainted node tainted unless it was evaluated, and changes no node ranked at or below `n` except `n` itself |
| TaintWalk.TaintKidsGrows | dagflow/core/flags_descriptor.py:102-112 | the same monotonicity for the children loop, which leaves `n` and everything ranked at or below it untouched |
| TaintWalk.TaintInputsGrows | src/dagflow/core/output.py:357-369 | the same monotonicity for an output's child inputs |
| TaintWalk.TaintNodeSelf | src/dagflow/core/node.py:551-561 | when the walk passes an untainted (or forced) unfrozen node, the node ends tainted unless it was evaluated, with exactly one more call when it was |
| TaintWalk.TaintNodeMarked | src/dagflow/core/node.py:551-556 | a tainted node without force is left exactly as it is; a frozen one only gains `frozen_tainted`; in every case the start node is marked |
| TaintWalk.TaintInputsMarks | src/dagflow/core/output.py:357-369 | after an output taints its children, the node of every child input is marked: tainted, waiting in `frozen_tainted`, or evaluated |
| TaintWalk.TaintKidsMarks | dagflow/core/flags_descriptor.py:102-112 | after the children loop, every node fed by one of the positional outputs is marked |
| TaintWalk.TaintMarksChildren | src/dagflow/core/node.py:543-563 | a taint that goes past its node marks the node of every input fed by its positional outputs |
| TaintWalk.TaintAgain | src/dagflow/core/node.py:551-552 | tainting again without force, right after a taint that did not evaluate the node, changes nothing |
| InvalidWalk.AnyParentInvalid | dagflow/core/flags_descriptor.py:76 | the scan of the parents answers True iff some input, after a run of inputs connected to valid parents, is fed by an invalid node; it raises AttributeError iff such a run reaches an unconnected input first |
| InvalidWalk.InvNode | dagflow/core/flags_descriptor.py:73-80 | the `invalid` setter of a node gives one flag record per node; what it changes and raises is stated by InvNodeWithin, InvNodeError and InvNodeAll |
| InvalidWalk.InvKids | dagflow/core/flags_descriptor.py:88-90 | `invalidate_children` gives one flag record per node; its effect is stated by InvKidsWithin, InvKidsError and InvKidsAll |
| InvalidWalk.InvInputs | src/dagflow/core/output.py:163-167 | the `invalid` setter of an output gives one flag record per node; its effect is stated by InvInputsWithin, InvInputsError and InvInputsAll |
| InvalidWalk.InvUp | dagflow/core/flags_descriptor.py:92-96 | `invalidate_parents` gives one flag record per node; its effect is stated by InvUpWithin, InvUpAncestors and InvUpError |
| InvalidWalk.InvNodeWithin | dagflow/core/flags_descriptor.py:73-80 | setting `invalid` on a node changes only that node and nodes below it, each into exactly what `invalidate(v)` makes of its old flags |
| InvalidWalk.InvKidsWithin | dagflow/core/flags_descriptor.py:88-90 | `invalidate_children` changes only nodes below the positional outputs, each as `invalidate(v)` would |
| InvalidWalk.InvInputsWithin | src/dagflow/core/output.py:163-167 | the `invalid` setter of an output changes only nodes below its child inputs, each as `invalidate(v)` would |
| InvalidWalk.WithinTrans | dagflow/core/flags_descriptor.py:73-96 | successive invalidation steps compose: their changed sets add up |
| InvalidWalk.ExactlyTrans | dagflow/core/flags_descriptor.py:73-96 | successive exact invalidations compose into an exact invalidation of the union |
| InvalidWalk.InvNodeError | dagflow/core/flags_descriptor.py:73-80 | the only exception a downward invalidation raises is the AttributeError of an unconnected input |
| InvalidWalk.InvKidsError | dagflow/core/flags_descriptor.py:88-90 | the same for the children loop |
| InvalidWalk.InvInputsError | src/dagflow/core/output.py:163-167 | the same for an output's child inputs |
| InvalidWalk.InvNodeAll | dagflow/core/flags_descriptor.py:73-80 | `invalid = True` always succeeds and invalidates exactly the node and every node below it |
| InvalidWalk.InvKidsAll | dagflow/core/flags_descriptor.py:88-90 | `invalidate_children(True)` succeeds and invalidates exactly every node below the positional outputs |
| InvalidWalk.InvInputsAll | src/dagflow/core/output.py:163-167 | an output's `invalid = True` succeeds and invalidates exactly every node below its child inputs |
| InvalidWalk.InvUpWithin | dagflow/core/flags_descriptor.py:92-96 | `invalidate_parents(v)` changes only ancestors, each into what `invalidate(v)` makes of it |
| InvalidWalk.InvUpAncestors | dagflow/core/flags_descriptor.py:92-96 | a successful `invalidate_parents(v)` invalidates every ancestor and nothing else |
| InvalidWalk.InvUpError | dagflow/core/flags_descriptor.py:92-96 | the only exception `invalidate_parents` raises is the AttributeError of an input without a parent |
| InvalidWalk.RevalidateBlocked | dagflow/core/flags_descriptor.py:75-77 | revalidating a node that still has an invalid parent (found before any unconnected input) changes nothing and raises nothing |
| TypeWalk.TypeNodeWithin | src/dagflow/core/node.py:576-579 | `taint_type` changes only open nodes at or below its start, each into exactly what `taint_type` makes of it (types and value tainted, unfrozen); closed nodes are never touched |
| TypeWalk.TypeNode | src/dagflow/core/node.py:576-579 | `taint_type` gives one flag record per node; its effect is stated by TypeNodeWithin, TypeNodeError and TypeNodeForced |
| TypeWalk.TypeKids | dagflow/core/flags_descriptor.py:114-121 | the loop over the positional outputs gives one flag record per node; its effect is stated by TypeKidsWithin, TypeKidsError and TypeKidsForced |
| TypeWalk.TypeInputs | src/dagflow/core/output.py:371-373 | `taint_children_type` gives one flag record per node; its effect is stated by TypeInputsWithin, TypeInputsError and TypeInputsForced |
| TypeWalk.TypeKidsWithin | dagflow/core/flags_descriptor.py:114-121 | the loop over the positional outputs changes only open nodes below them |
| TypeWalk.TypeInputsWithin | src/dagflow/core/output.py:371-373 | `taint_children_type` changes only open nodes below the output's child inputs |
| TypeWalk.TypeWithinTrans | dagflow/core/flags_descriptor.py:114-121 | successive type-taint steps compose |
| TypeWalk.TypeExactlyTrans | dagflow/core/flags_descriptor.py:114-121 | successive exact type taints compose |
| TypeWalk.TypeNodeError | src/dagflow/core/node.py:576-579 | the only exception a type taint raises is ClosedGraphError, met at a closed node |
| TypeWalk.TypeKidsError | dagflow/core/flags_descriptor.py:114-121 | the same for the children loop |
| TypeWalk.TypeInputsError | src/dagflow/core/output.py:371-373 | the same for an output's child inputs |
| TypeWalk.TypeNodeForced | src/dagflow/core/node.py:576-579 | a forced type taint over open nodes succeeds and taints the types of exactly the start node and every node below it |
| TypeWalk.TypeKidsForced | dagflow/core/flags_descriptor.py:114-121 | a forced type taint through the positional outputs over open nodes succeeds and reaches exactly the nodes below them |
| TypeWalk.TypeInputsForced | src/dagflow/core/output.py:371-373 | a forced `taint_children_type` over open nodes succeeds and reaches exactly the nodes below the child inputs |
| TypeWalk.TypeAgain | dagflow/core/flags_descriptor.py:115-116 | after a successful type taint the node's types are tainted, so an unforced second one changes nothing |
| UpdateWalk.UpdNode | src/dagflow/core/node.py:610-624 | a node whose types are untainted is left alone and passes; a successful pass leaves the node's types untainted and, when they were tainted, the node needing reallocation |
| UpdateWalk.UpdIns | src/dagflow/core/node.py:615-619 | the loop over the inputs gives one flag record per node; its effect is stated by UpdInsWithin, UpdInsError, UpdInsUnbound and UpdInsParents |
| UpdateWalk.UpdWithinTrans | src/dagflow/core/node.py:610-624 | successive type-update steps compose |
| UpdateWalk.UpdNodeWithin | src/dagflow/core/node.py:610-624 | `update_types` changes only the node and its ancestors, each into what `update_types` makes of its flags |
| UpdateWalk.UpdInsWithin | src/dagflow/core/node.py:615-619 | the loop over the inputs changes only ancestors |
| UpdateWalk.UpdNodeError | src/dagflow/core/node.py:610-624 | the only exceptions of the type pass are ClosingError and the errors of some node's type function |
| UpdateWalk.UpdInsError | src/dagflow/core/node.py:615-619 | the same for the loop over the inputs |
| UpdateWalk.UpdUnbound | src/dagflow/core/node.py:616-618 | with parents to update, a node with tainted types and an unconnected input never passes |
| UpdateWalk.UpdInsUnbound | src/dagflow/core/node.py:616-618 | the loop over the inputs fails whenever an unconnected input lies ahead |
| UpdateWalk.UpdParents | src/dagflow/core/node.py:615-619 | after a successful type pass with parents, every parent has untainted types |
| UpdateWalk.UpdInsParents | src/dagflow/core/node.py:615-619 | after a successful loop over the inputs, every parent reached has untainted types |
| AllocWalk.AllocIns | dagflow/core/edges.py:110-116 | `inputs.allocate()` changes no output, keeps every existing buffer's dtype and shape, raises only AllocationError, and reports a reassignment once any input reported one |
| AllocWalk.AinOf | src/dagflow/core/output.py:314 | an output's allocating input is found iff the output records one |
| AllocWalk.Install | src/dagflow/core/output.py:309-349 | what an output's allocation leaves behind: the output's new state at its own index and the new buffers, every other output unchanged |
| AllocWalk.AllocOuts | dagflow/core/edges.py:110-116 | `outputs.allocate()` keeps every existing buffer's dtype and shape and reports a reassignment once any output reported one |
| AllocWalk.PostAllocAsWritten | src/dagflow/core/node.py:601-608 | as written, the callback list gets one entry per input (unless an unconnected input raises), whether or not the parent node is already listed |
| AllocWalk.PostAlloc | src/dagflow/core/node.py:601-608 | as intended, registering the callbacks only appends to the list it is given, and the only exception is the AttributeError of an unconnected input |
| AllocWalk.PostAllocDistinct | src/dagflow/core/node.py:601-608 | as intended, the callback list holds each parent node of the node exactly once |
| AllocWalk.PostAllocDuplicates | src/dagflow/core/node.py:604-608 | a node fed twice by one parent gets that parent's callback twice as written and once as intended |
| AllocWalk.LocalAlloc | src/dagflow/core/node.py:638-647 | the node-local part of `allocate` keeps every existing buffer's dtype and shape; on success the node is allocated and needs no reallocation and no other node's flags change; on failure no flags change |
| AllocWalk.AllocNode | src/dagflow/core/node.py:626-647 | an allocated node that needs no reallocation is left alone; `allocate` never returns False; on success the node is allocated and needs no reallocation |
| AllocWalk.AllocParents | src/dagflow/core/node.py:630-637 | the loop over the parents never returns False |
| AllocWalk.AllocWithinTrans | src/dagflow/core/node.py:626-647 | successive allocation steps compose |
| AllocWalk.AllocNodeWithin | src/dagflow/core/node.py:626-647 | allocation changes the flags of the node and its ancestors only, each into what `allocate` makes of them |
| AllocWalk.AllocParentsWithin | src/dagflow/core/node.py:630-637 | the loop over the parents changes ancestors only |
| AllocWalk.AllocParentsDone | src/dagflow/core/node.py:626-647 | after a successful allocation with parents, every parent of a node that needed allocating is allocated and needs no reallocation |
| AllocWalk.AllocParentsAll | src/dagflow/core/node.py:630-637 | after a successful loop over the parents, each of them is allocated |
| AllocWalk.AllocUnbound | src/dagflow/core/node.py:631-635 | with parents to allocate, a node that needs allocating and has an unconnected input always fails |
| AllocWalk.AllocParentsUnbound | src/dagflow/core/node.py:631-635 | the loop over the parents fails whenever an unconnected input lies ahead |
| CloseWalk.UpdKeeps | src/dagflow/core/node.py:610-624 | the type pass opens and closes nothing, deallocates nothing and touches no node ranked above the start |
| CloseWalk.AllocKeeps | src/dagflow/core/node.py:626-647 | the allocation pass opens and closes nothing, deallocates nothing and touches no node ranked above the start |
| CloseWalk.Seal | src/dagflow/core/node.py:683 | the node's `closed` flag becomes its `allocated` flag; nothing else changes |
| CloseWalk.CloseNode | src/dagflow/core/node.py:649-693 | a closed node is done (True); an invalid one raises ClosingError unchanged; no node is ever reopened; every closed node stays allocated; the result is the node's final `closed` flag; a strict close never returns False; without `close_children` nothing ranked above the node changes |
| CloseWalk.Passes | src/dagflow/core/node.py:663-674 | the two passes close and open nothing and touch nothing ranked above the node; a ClosingError escapes only when `strict` |
| CloseWalk.CloseRest | src/dagflow/core/node.py:675-693 | closing the parents and sealing reopens nothing and keeps closed nodes allocated; the result is the node's `closed` flag, True when strict |
| CloseWalk.CloseSealed | src/dagflow/core/node.py:684-693 | a strict close that left the node open raises; without `close_children` nothing changes after sealing; the result is the node's `closed` flag |
| CloseWalk.CloseParents | src/dagflow/core/node.py:675-678 | closing the parents never returns False (a strict close raises instead), reopens nothing and touches nothing ranked at or above the node |
| CloseWalk.CloseKids | src/dagflow/core/node.py:687-690 | the `close_children` loop reopens nothing and keeps closed nodes allocated |
| CloseWalk.CloseKidIns | src/dagflow/core/node.py:688-690 | closing the nodes of one output's child inputs reopens nothing and keeps closed nodes allocated |
| CloseWalk.CloseUnbound | src/dagflow/core/node.py:649-693 | a strict close with parents of a node with an unconnected input always raises |
| CloseWalk.CloseParentsUnbound | src/dagflow/core/node.py:675-678 | the parents loop raises whenever an unconnected input lies ahead |
| CloseWalk.CloseClosesParents | src/dagflow/core/node.py:675-678 | a close with parents that returns, strict or not, leaves every parent closed |
| CloseWalk.CloseParentsAll | src/dagflow/core/node.py:675-678 | after a successful parents loop, every parent reached is closed |
| CloseWalk.CloseClosesChildren | src/dagflow/core/node.py:687-690 | a strict close with children that succeeds leaves every child node closed |
| CloseWalk.CloseKidsAll | src/dagflow/core/node.py:687-690 | a successful strict `close_children` loop closes every node fed by the positional outputs |
| CloseWalk.CloseKidInsAll | src/dagflow/core/node.py:688-690 | a successful strict close over one output's child inputs closes every node they feed |
| OpenWalk.TaintKeeps | src/dagflow/core/node.py:543-563 | a taint opens, closes and freezes nothing |
| OpenWalk.Unfrozen | src/dagflow/core/node.py:535-541 | `unfreeze` leaves a node that is not frozen alone and otherwise unfreezes it, tainting it only when a taint arrived while it was frozen; it opens and closes nothing |
| OpenWalk.OpenNode | src/dagflow/core/node.py:695-712 | an open node without forced taint is done (True); `open` closes nothing, and on success the node is open |
| OpenWalk.OpenKids | src/dagflow/core/node.py:704-708 | the `open_children` loop closes nothing |
| OpenWalk.OpenKidIns | src/dagflow/core/node.py:705-708 | opening the nodes of one output's child inputs closes nothing |
| OpenWalk.OpenNodeOk | src/dagflow/core/node.py:695-712 | `open` always returns True, so its OpeningError is never raised |
| OpenWalk.OpenKidsPass | src/dagflow/core/node.py:704-708 | the `open_children` loop never raises |
| OpenWalk.OpenKidInsPass | src/dagflow/core/node.py:705-708 | opening one output's child nodes never raises |
| OpenWalk.OpenOpensChildren | src/dagflow/core/node.py:695-712 | opening a closed node with its children leaves it unfrozen and open and every child node open |
| OpenWalk.OpenKidsAll | src/dagflow/core/node.py:704-708 | after the `open_children` loop every node fed by the positional outputs is open |
| OpenWalk.OpenKidInsAll | src/dagflow/core/node.py:705-708 | after opening one output's child nodes every node they feed is open |
| NodeOps.Touch | src/dagflow/core/node.py:514-526 | without force an untainted node is left alone, and a tainted node that is not closed raises UnclosedGraphError and changes nothing; otherwise exactly that node gains one call and loses its taint, every other flag and count unchanged |
| NodeOps.TouchAgain | src/dagflow/core/node.py:514-526 | after a touch that went through, an unforced touch does nothing: the function runs at most once per taint |
| NodeOps.Freeze | src/dagflow/core/node.py:528-533 | a frozen node is left alone; `freeze` raises CriticalError, changing nothing, iff the node is unfrozen and tainted; otherwise only that node changes and it is frozen |
| NodeOps.FreezeIdempotent | src/dagflow/core/node.py:528-533 | freezing twice is freezing once |
| NodeOps.UnfreezeUndoesFreeze | src/dagflow/core/node.py:528-541 | freezing an untainted node and unfreezing it restores every flag and call count |
| NodeOps.UnfreezeRetaints | src/dagflow/core/node.py:535-541 | unfreezing a node that recorded a taint while frozen clears the record and taints it now: it ends tainted, or evaluated once more |
| OutputData.WriteAll | src/dagflow/core/output.py:245 | `_data[:] = data` broadcasts as numpy assigns a full slice: it succeeds iff there is an array with at least one axis into which the data broadcast, and then the array keeps its shape, holds one value per element (the broadcast data, not cast to the output's dtype) and nothing else changes; no array raises TypeError, a 0-d array IndexError, data that do not broadcast ValueError |
| OutputData.Differs | src/dagflow/core/output.py:243 | `(self._data != data).any()`: with no array, true iff the data have an element; otherwise defined iff the data broadcast into the array's shape (ValueError otherwise), and true iff the broadcast data differ from the values held |
| OutputData.FillAt | src/dagflow/core/output.py:259 | `_data[idx] = x` succeeds iff there is an array and the index is in range by Python's rules (negative counting from the end), then changes exactly that element; otherwise TypeError or IndexError |
| OutputData.TaintAfterWrite | src/dagflow/core/output.py:352-355 | after a write the children are tainted, the node's parents invalidated (only AttributeError can escape) and, on success, the writing node is untainted; the call counts are those of the children's taint |
| OutputData.SetValues | src/dagflow/core/output.py:239-247 | a frozen node without force refuses with False and changes nothing; a False result never changes anything, nor does a TypeError, IndexError or ValueError (the only other errors besides AttributeError); a True result (or the AttributeError of the taint that follows the write) means the output's array has axes, the data broadcast into it, and it now holds the broadcast data; buffers other than the output's are untouched |
| OutputData.SetScalar | src/dagflow/core/output.py:239-247 | `set(x)` with one number on an unfrozen (or forced) output whose array has axes writes x into every element, as the Jacobian tests' `output.set(-1.0)` relies on |
| OutputData.SetValueAt | src/dagflow/core/output.py:249-263 | the same for `seti`: a True result means the index was in range and exactly that element now holds `x` |
| OutputData.SetSameAgain | src/dagflow/core/output.py:243 | setting the values an output already holds with `check_taint` changes nothing and returns False |
| OutputData.SetTaintsChildren | src/dagflow/core/output.py:239-247 | after a `set` that went through, every other node fed by the output is marked by the taint and the writing node is untainted |
| OutputData.ReadData | src/dagflow/core/output.py:169-186 | reading `data` raises UnclosedGraphError iff the node is open, changing nothing; otherwise it returns the output's array, the node ends untainted, and it was evaluated exactly when it was tainted |
| OutputData.ReadTwice | src/dagflow/core/output.py:169-186 | a second read changes nothing and returns the same array |
| OutputData.SetOutData | src/dagflow/core/output.py:265-301 | `_set_data` on a closed node raises ClosedGraphError and changes nothing; on failure outputs and buffers are unchanged; on success the output holds the new array consistently with the ownership given, and the node's types are tainted exactly when the descriptor disagreed with the array |
| Wiring.ConnectChecks | src/dagflow/core/output.py:390-419 | the checks before any change refuse only with ConnectionError |
| Wiring.ParentChecks | src/dagflow/core/input.py:139-148 | `set_parent_output` accepts exactly an input of an open node that has no parent yet |
| Wiring.Link | src/dagflow/core/output.py:419-422 | recording a connection keeps every table and number in range |
| Wiring.ConnectAsWritten | src/dagflow/core/output.py:378-422 | `_connect_to_input` as written keeps every table and number in range, even when `set_parent_output` refuses after the output recorded the input |
| Wiring.Connect | src/dagflow/core/output.py:378-422 | a connection succeeds iff the output-side checks pass, the input's node is open and the input has no parent; a closed output refuses an allocatable input and an open output an input of a closed node (ConnectionError); an allocatable input needs an output with no allocating input that allows reallocation; a bound input raises ReconnectionError; on success exactly the output's child list (and, for an allocatable input, its allocating input) and the input's parent change |
| Wiring.Bind | src/dagflow/core/output.py:378-422 | as one step on the whole state: it passes exactly when the connection succeeds, and a refusal leaves the state unchanged |
| Wiring.ConnectAsWrittenVerdict | src/dagflow/core/output.py:378-422 | the code as written and the checked connection accept and refuse the same connections with the same errors, and agree wherever both succeed |
| Wiring.ConnectKeepsLinked | src/dagflow/core/output.py:419-422 | a successful connection keeps both directions of every link in agreement, leaves both ends connected, and never lists an input twice |
| Wiring.ConnectKeepsRanked | src/dagflow/core/output.py:378-422 | connecting a lower-ranked node to a higher-ranked one keeps the graph acyclic under the same ranking |
| Wiring.ConnectAsWrittenDangling | src/dagflow/core/output.py:419-420 | connecting a second output to an already bound input raises ReconnectionError as written, yet leaves that output listing a child whose parent is another output; the checked connection refuses without a change |
| Wiring.SetChildOutput | src/dagflow/core/input.py:127-137 | an input of a closed node raises ClosedGraphError; a second child output raises ReconnectionError unless forced; otherwise only the input and the output change, and they name each other |
| Wiring.SetChildOutputKeepsPaired | src/dagflow/core/input.py:132-137 | pairing an unpaired input with an unpaired output keeps every input/output pairing mutual |
| Wiring.FreshIn | src/dagflow/core/input.py:46-84 | an input built with no data options is not allocatable and holds no data of its own |
| Wiring.FreshOut | src/dagflow/core/output.py:65-104 | an output built with no data options is allocatable, holds no data and does not forbid reallocation |
| Wiring.AddInputRaw | src/dagflow/core/node.py:378-397 | a name the node already has raises ReconnectionError with no change; otherwise a fresh input is built (paired with the given child output) and listed under its name, positionally and by keyword as asked, and the node stops being allocated; a refusal by the container is a RuntimeError that leaves the built input unlisted |
| Wiring.AddOutputRaw | src/dagflow/core/node.py:412-431 | a name the node already has raises ReconnectionError with no change; a refusal by the container is a RuntimeError with no change; otherwise a fresh output is listed under its name, positionally and by keyword as asked, and the node stops being allocated |
| NodeBuild.OutputStep | dagflow/core/input_strategy.py:107-215 | the output step of a strategy: no output changes nothing; "last output" picks the node's last positional output unchanged; "new output" adds an output under the planned name exactly as `_add_output` does and yields its number |
| NodeBuild.RunStrategy | dagflow/core/input_strategy.py:84-215 | a strategy whose plan fails raises the plan's error with no change; a successful call adds exactly one unconnected positional input to the node under the planned name (plus one output when the plan adds one), stores the planned scope, and pairs the input with an output of the node exactly when the plan links them |
| NodeBuild.RunStrategyKeepsLinked | dagflow/core/input_strategy.py:84-215 | carrying out a strategy keeps both directions of every connection in agreement |
| NodeBuild.AddOutputKeepsLinked | src/dagflow/core/node.py:412-431 | adding an output keeps both directions of every connection in agreement |
| NodeBuild.AddInputKeepsLinked | src/dagflow/core/node.py:378-397 | adding an input keeps both directions of every connection in agreement |
| NodeBuild.AddInput | src/dagflow/core/node.py:340-363 | a closed node raises ClosedGraphError; with allowed keyword inputs an unknown name raises CriticalError and an allowed one is added directly; with the base strategy the input is added directly; a success yields an input of this node |
| NodeBuild.AddOutput | src/dagflow/core/node.py:399-410 | a closed node raises ClosedGraphError; otherwise exactly `_add_output` |
| NodeBuild.MakeInput | src/dagflow/core/node.py:327-338 | a closed node raises ClosedGraphError; otherwise the strategy runs (its partial changes stay), any error it raises is reported as RuntimeError, and a success is the strategy's input |
| NodeBuild.Call | src/dagflow/core/node.py:303-325 | without a name a closed node raises ClosedGraphError; a name listed as a keyword input is returned with no change, raising ReconnectionError iff that input is bound; an unknown name is added as a non-positional input through `add_input` |
| NodeBuild.FirstFree | src/dagflow/core/output.py:434-440 | the search yields an unconnected positional input from the given position on, or, when it finds none, every such input is connected |
| NodeBuild.TargetInput | src/dagflow/core/output.py:433-447 | the input bound to is the first free positional input, or a new one made by `node()` with the scope, and it is always a positional input of the node |
| NodeBuild.ConnectToNode | src/dagflow/core/output.py:424-452 | the output is connected to the target input exactly as `_connect_to_input` would; on success the output's last child is that input, bound to it and positional on the node; with `reassign` the scope is stored in the node's strategy |
| NodeBuild.ConnectToNodeKeepsLinked | src/dagflow/core/output.py:424-452 | binding an output to a node keeps both directions of every connection in agreement, even when it fails part way |
| NodeBuild.CallAgain | src/dagflow/core/node.py:303-325 | `node(name)` is get-or-create: once it has made an input for a new name, calling it again returns the same input and changes nothing |
| NodeBuild.AddInputTaken | src/dagflow/core/node.py:340-397 | `add_input` with a name the node already has is refused and changes nothing |
| NodeBase.SetStrategy | src/dagflow/core/node_base.py:33-50 | None installs the base strategy with scope 0; an instance is installed as it is; a strategy class is instantiated with its defaults; any other class raises InitializationError and a value that is not a class TypeError; only the node's own strategy changes |
| NodeBase.AsTuple | src/dagflow/core/node_base.py:58-61 | a single int or str sub-key is taken as a one-element tuple |
| NodeBase.GetItem | src/dagflow/core/node_base.py:52-72 | an int, slice or str indexes the outputs; a key of length other than 2 raises ValueError (TypeError when it has no length); two true sub-keys give a view whose inputs and outputs have one entry per selected key; one true sub-key selects inputs or outputs; two false ones raise ValueError |
| NodeBase.Get | src/dagflow/core/node_base.py:74-78 | `get` returns what indexing returns, and the default whenever indexing raises |
| NodeBase.AimedGrows | src/dagflow/core/output.py:454-520 | a target that names existing ports still does after the graph grew |
| NodeBase.Shift | src/dagflow/core/output.py:454-520 | `output >> input` connects directly, passing exactly when `_connect_to_input` succeeds; `output >> node` binds with the node's next scope and stores it; an empty sequence does nothing; any other value raises ConnectionError; the graph only grows |
| NodeBase.ShiftAll | src/dagflow/core/output.py:506-508 | connecting a sequence element by element only grows the graph, and the empty remainder does nothing |
| NodeBase.ShiftKeepsLinked | src/dagflow/core/output.py:454-520 | `>>` keeps both directions of every connection in agreement, whatever it is given |
| NodeBase.ShiftAllKeepsLinked | src/dagflow/core/output.py:506-508 | the same for a sequence of targets |
| NodeBase.ShiftAllConnects | src/dagflow/core/output.py:506-508 | after a successful `output >> [inputs]` each listed input has the output as its parent |
| NodeBase.KeepsParents | src/dagflow/core/output.py:506-508 | a run of connections leaves the parent of an already connected input alone |
| NodeBase.NodeShift | src/dagflow/core/node_base.py:91-106 | `node >> target` raises ConnectionError unless the node has exactly one output, which is then shifted into the target |
| NodeBase.SourceOutput | src/dagflow/core/node_base.py:125-143 | an output offers itself; a parameter offers its connectible output (AttributeError when it has none); a node must have exactly one output (ConnectionError); anything else raises ConnectionError |
| NodeBase.RShiftInto | src/dagflow/core/node_base.py:108-144 | a value that is not a sequence raises ConnectionError; the graph only grows; on success the node's strategy stores the node's next scope, shared by all sources |
| NodeBase.BindAll | src/dagflow/core/node_base.py:123-143 | the loop only grows the graph and, when it succeeds, adds at most one input per source |
| NodeBase.BindAllStep | src/dagflow/core/node_base.py:123-143 | one turn of the loop binds the source's output to the node without storing the scope, and stops at the first failure |
| NodeBase.BindAllKeepsLinked | src/dagflow/core/node_base.py:108-144 | `sources >> node` keeps both directions of every connection in agreement |
| NodeBase.LShift | src/dagflow/core/node_base.py:146-178 | `node << storage` never adds or removes a port and leaves the nodes' containers as they were |
| NodeBase.LShiftKeeps | src/dagflow/core/node_base.py:172-177 | `node << storage` never touches an input that was already connected, whether it succeeds or stops on an error |
| NodeBase.LShiftBinds | src/dagflow/core/node_base.py:146-178 | after a successful `node << storage` every input whose name the storage maps to an output or parameter is connected, and every input that was already connected keeps its parent |
| NodeBase.LShiftConnects | src/dagflow/core/node_base.py:160-177 | after a successful `node << storage` every input named in the storage is connected |
| Graphs.WithNode | dagflow/core/graph.py:74-85 | a closed graph raises ClosedGraphError; a node already registered raises DagflowError; a refusal changes nothing; otherwise the node is appended to the graph's nodes and to its new nodes |
| Graphs.AddNodeKeeps | src/dagflow/core/node.py:280-287 | adding nodes never lists a node twice and never lists a node that does not exist |
| Graphs.WithNodes | dagflow/core/graph.py:87-92 | a closed graph raises ClosedGraphError; on success the nodes are appended in order |
| Graphs.UpdAll | dagflow/core/graph.py:107-115 | the type pass of `Graph.close` opens, closes and deallocates nothing, and a ClosingError escapes only when `strict` |
| Graphs.AllocAll | dagflow/core/graph.py:116-124 | the allocation pass opens, closes and deallocates nothing, and a ClosingError escapes only when `strict` |
| Graphs.CloseAllAsWritten | dagflow/core/graph.py:125-135 | the close loop as written reopens no node and keeps closed nodes allocated |
| Graphs.CloseAll | dagflow/core/graph.py:125-135 | the close loop as intended reopens no node and keeps closed nodes allocated; a ClosingError escapes only when `strict`; when it reports the graph closed and raises nothing, every node it processed is closed |
| Graphs.CloseAllStep | dagflow/core/graph.py:125-135 | one turn of the intended loop: an escaping error stops it with `closed` as it was, a swallowed ClosingError or a node left open stops it with the graph open, a closed node goes on |
| Graphs.ClosePasses | dagflow/core/graph.py:104-135 | the three passes reopen nothing, keep closed nodes allocated, let a ClosingError escape only when strict, and, when they report the graph closed, leave every processed node closed |
| Graphs.GraphClose | dagflow/core/graph.py:99-145 | a closed graph is done unless forced; the graph's node list and options are kept; afterwards the new-node list is empty and the nodes count as closed; the result is the graph's `closed`, never False when strict; with the corrected close loop (see Findings) a True result means every processed node is closed |
| Graphs.CloseAllAsWrittenReportsOpenNode | dagflow/core/graph.py:127-135 | a non-strict close in which the second node raises a swallowed ClosingError reports the graph closed as written with that node still open; the intended loop reports the graph open |
| Graphs.OpenAll | dagflow/core/graph.py:158-160 | opening each node with its children closes nothing |
| Graphs.GraphOpen | dagflow/core/graph.py:147-169 | `close_on_exit` is stored first; an open graph is done unless forced; without `open_nodes` no node changes and the graph is open; the node lists and `strict` are kept |
| Graphs.OpenAllOk | dagflow/core/graph.py:158-160 | every node opens, so `all(...)` is True and every node it reached is open |
| Graphs.GraphOpenOpens | dagflow/core/graph.py:147-169 | `Graph.open` never raises (its ClosedGraphError is dead code); afterwards the graph is open and, with `open_nodes`, so is every node it lists |
| Graphs.Current | dagflow/core/graph.py:178-180 | the current graph is the one entered last, and there is none iff no context is open |
| Graphs.Pop | dagflow/core/graph.py:186-188 | an empty stack raises IndexError; otherwise the top is popped, and it raises RuntimeError iff the top was not the exiting graph |
| Graphs.EnterThenExit | dagflow/core/graph.py:178-188 | entering a graph makes it current, and leaving it restores the stack as it was |
| Graphs.NestedContexts | dagflow/core/graph.py:178-188 | two nested contexts are left in reverse order |
| Graphs.Exited | dagflow/core/graph.py:186-195 | `__exit__` pops the stack; a wrong top raises with no other change; an exception of the `with` block is raised again unchanged; a graph not set to close on exit changes nothing else |
| Graphs.Contexts.Enter | dagflow/core/graph.py:182-184 | entering pushes the graph on the context stack |
| Graphs.Contexts.CurrentGraph | dagflow/core/graph.py:178-180 | the method returns the current graph as `Current` defines it |
| Graphs.Contexts.PopGraph | dagflow/core/graph.py:186-188 | the method leaves exactly the stack and outcome `Pop` defines |
| Graphs.Graph.constructor | dagflow/core/graph.py:33-51 | a new graph has no nodes and is open, with the given `close_on_exit` and `strict` |
| Graphs.Graph.AddNode | dagflow/core/graph.py:74-85 | the graph's new state and outcome are exactly those of `WithNode` |
| Graphs.Graph.AddNodes | dagflow/core/graph.py:87-92 | the graph's new state and outcome are exactly those of `WithNodes` |
| Graphs.Graph.UpdateAll | dagflow/core/graph.py:107-115 | the loop leaves exactly the flags and outcome of `UpdAll` |
| Graphs.Graph.AllocateAll | dagflow/core/graph.py:116-124 | the loop leaves exactly the state and outcome of `AllocAll` |
| Graphs.Graph.CloseEach | dagflow/core/graph.py:125-135 | the loop leaves exactly the state, `closed` and outcome of `CloseAll` |
| Graphs.Graph.RunPasses | dagflow/core/graph.py:107-135 | the type, allocation and close passes over the nodes to process leave exactly the engine state, `closed` and outcome of `ClosePasses` |
| Graphs.Graph.Close | dagflow/core/graph.py:99-145 | the graph and engine end exactly as `GraphClose` says, and the graph stays consistent with its engine |
| Graphs.Graph.Finish | dagflow/core/graph.py:107-145 | after the early return, the passes and the graph's own updates leave exactly the graph, engine and result `CloseFinish` gives, and the graph stays consistent with its engine |
| Graphs.Graph.OpenEach | dagflow/core/graph.py:158-160 | the loop leaves exactly the state and result of `OpenAll` |
| Graphs.Graph.Open | dagflow/core/graph.py:147-169 | the graph and engine end exactly as `GraphOpen` says |
| Graphs.Graph.Exit | dagflow/core/graph.py:186-195 | the graph, engine and context stack end exactly as `Exited` says |
| Engine.Dag.TouchNow | src/dagflow/core/node.py:522-526 | `_touch` updates the engine's marks exactly as `TaintWalk.Touched` |
| Engine.Dag.Touch | src/dagflow/core/node.py:514-520 | the engine's marks and outcome are exactly those of `NodeOps.Touch` |
| Engine.Dag.Freeze | src/dagflow/core/node.py:528-533 | the engine's marks and outcome are exactly those of `NodeOps.Freeze` |
| Engine.Dag.Unfreeze | src/dagflow/core/node.py:535-541 | the engine's marks become exactly `OpenWalk.Unfrozen` |
| Engine.Dag.Taint | src/dagflow/core/node.py:543-563 | the recursive taint leaves exactly the marks of `TaintWalk.TaintNode` |
| Engine.Dag.TaintChildren | dagflow/core/flags_descriptor.py:102-112 | the loop over the positional outputs leaves exactly the marks of `TaintWalk.TaintKids` |
| Engine.Dag.OutputTaintChildren | src/dagflow/core/output.py:357-369 | the loop over the child inputs leaves exactly the marks of `TaintWalk.TaintInputs` |
| Engine.Dag.SetInvalid | dagflow/core/flags_descriptor.py:73-80 | the `invalid` setter leaves exactly the flags and outcome of `InvalidWalk.InvNode` |
| Engine.Dag.InvalidateChildren | dagflow/core/flags_descriptor.py:88-90 | the loop leaves exactly the flags and outcome of `InvalidWalk.InvKids` |
| Engine.Dag.OutputInvalid | src/dagflow/core/output.py:163-167 | the loop leaves exactly the flags and outcome of `InvalidWalk.InvInputs` |
| Engine.Dag.InvalidateParents | dagflow/core/flags_descriptor.py:92-96 | the upward walk leaves exactly the flags and outcome of `InvalidWalk.InvUp` |
| Engine.Dag.TaintType | src/dagflow/core/node.py:576-579 | the type taint leaves exactly the flags and outcome of `TypeWalk.TypeNode` |
| Engine.Dag.TaintChildrenType | dagflow/core/flags_descriptor.py:114-121 | the loop leaves exactly the flags and outcome of `TypeWalk.TypeKids` |
| Engine.Dag.OutputTaintChildrenType | src/dagflow/core/output.py:371-373 | the loop leaves exactly the flags and outcome of `TypeWalk.TypeInputs` |
| Engine.Dag.UpdateTypes | src/dagflow/core/node.py:610-624 | the type pass leaves exactly the flags and outcome of `UpdateWalk.UpdNode` |
| Engine.Dag.AllocateInputs | dagflow/core/edges.py:110-116 | allocating the inputs leaves exactly the ports, buffers and result of `AllocWalk.AllocIns` |
| Engine.Dag.AllocateOutputs | dagflow/core/edges.py:110-116 | allocating the outputs leaves exactly the ports, buffers and result of `AllocWalk.AllocOuts` |
| Engine.Dag.Install | src/dagflow/core/output.py:309-349 | an output's allocation is stored exactly as `AllocWalk.Install` says |
| Engine.Dag.PostAllocate | src/dagflow/core/node.py:601-608 | the node's callback list becomes the intended `AllocWalk.PostAlloc` list; no other node's list changes |
| Engine.Dag.Allocate | src/dagflow/core/node.py:626-647 | `allocate` leaves exactly the state and result of `AllocWalk.AllocNode` |
| Engine.Dag.LocalAllocate | src/dagflow/core/node.py:638-647 | the node-local part of `allocate` leaves exactly the state and result of `AllocWalk.LocalAlloc` |
| Engine.Dag.Close | src/dagflow/core/node.py:649-693 | `close` leaves exactly the state and result of `CloseWalk.CloseNode` |
| Engine.Dag.CloseRest | src/dagflow/core/node.py:675-693 | the rest of `close` leaves exactly the state and result of `CloseWalk.CloseRest` |
| Engine.Dag.Seal | src/dagflow/core/node.py:683-693 | sealing and what follows leave exactly the state and result of `CloseWalk.CloseSealed` after `CloseWalk.Seal` |
| Engine.Dag.CloseParentNodes | src/dagflow/core/node.py:675-678 | the parents loop leaves exactly the state and result of `CloseWalk.CloseParents` |
| Engine.Dag.CloseChildren | src/dagflow/core/node.py:687-690 | the children loop leaves exactly the state and outcome of `CloseWalk.CloseKids` |
| Engine.Dag.CloseChildInputs | src/dagflow/core/node.py:688-690 | the inner children loop leaves exactly the state and outcome of `CloseWalk.CloseKidIns` |
| Engine.Dag.Open | src/dagflow/core/node.py:695-712 | `open` leaves exactly the marks and result of `OpenWalk.OpenNode` |
| Engine.Dag.Reopen | src/dagflow/core/node.py:709-712 | the end of `open` leaves exactly the marks of `OpenWalk.Reopened`: unfrozen, tainted and open |
| Engine.Dag.OpenChildren | src/dagflow/core/node.py:704-708 | the children loop leaves exactly the marks and outcome of `OpenWalk.OpenKids` |
| Engine.Dag.OpenChildInputs | src/dagflow/core/node.py:705-708 | the inner children loop leaves exactly the marks and outcome of `OpenWalk.OpenKidIns` |
| Engine.Dag.TaintAfterWrite | src/dagflow/core/output.py:352-355 | the taint after a write leaves exactly the marks and outcome of `OutputData.TaintAfterWrite` |
| Engine.Dag.Set | src/dagflow/core/output.py:239-247 | `set` leaves exactly the marks, buffers and result of `OutputData.SetValues`, with its narrowings |
| Engine.Dag.Seti | src/dagflow/core/output.py:249-263 | `seti` leaves exactly the marks, buffers and result of `OutputData.SetValueAt`, an element of the flattened array |
| Engine.Dag.Data | src/dagflow/core/output.py:169-186 | reading `data` leaves exactly the marks and result of `OutputData.ReadData` |
| Engine.Dag.SetData | src/dagflow/core/output.py:265-301 | `_set_data` leaves exactly the flags, outputs, buffers and outcome of `OutputData.SetOutData` |
| Engine.Dag.ConnectInput | src/dagflow/core/output.py:378-422 | `_connect_to_input` leaves exactly the state and outcome of `Wiring.Bind`: a refused connection changes nothing |
| Engine.Dag.AddInputRaw | src/dagflow/core/node.py:378-397 | `_add_input` leaves exactly the state and result of `Wiring.AddInputRaw` |
| Engine.Dag.AddOutputRaw | src/dagflow/core/node.py:412-431 | `_add_output` leaves exactly the state and result of `Wiring.AddOutputRaw` |
| Engine.Dag.RunStrategy | dagflow/core/input_strategy.py:84-215 | a strategy call leaves exactly the state and result of `NodeBuild.RunStrategy` |
| Engine.Dag.OutputStep | dagflow/core/input_strategy.py:107-215 | the output step of a strategy leaves exactly the state and result of `NodeBuild.OutputStep` |
| Engine.Dag.AddInput | src/dagflow/core/node.py:340-363 | `add_input` leaves exactly the state and result of `NodeBuild.AddInput` |
| Engine.Dag.AddOutput | src/dagflow/core/node.py:399-410 | `add_output` leaves exactly the state and result of `NodeBuild.AddOutput` |
| Engine.Dag.MakeInput | src/dagflow/core/node.py:327-338 | `node()` leaves exactly the state and result of `NodeBuild.MakeInput` |
| Engine.Dag.Call | src/dagflow/core/node.py:303-325 | `node(name)` leaves exactly the state and result of `NodeBuild.Call` |
| Engine.Dag.FirstFree | src/dagflow/core/output.py:434-440 | the search loop returns exactly `NodeBuild.FirstFree` |
| Engine.Dag.TargetInput | src/dagflow/core/output.py:433-447 | the choice of input leaves exactly the state and result of `NodeBuild.TargetInput` |
| Engine.Dag.ConnectToNode | src/dagflow/core/output.py:424-452 | `_connect_to_node` leaves exactly the state and outcome of `NodeBuild.ConnectToNode` |
| Engine.Dag.Shift | src/dagflow/core/output.py:454-520 | `output >> target` leaves exactly the state and outcome of `NodeBase.Shift` |
| Engine.Dag.NodeShift | src/dagflow/core/node_base.py:91-106 | `node >> target` leaves exactly the state and outcome of `NodeBase.NodeShift` |
| Engine.Dag.RShiftInto | src/dagflow/core/node_base.py:108-144 | `sources >> node` leaves exactly the state and outcome of `NodeBase.RShiftInto` |
| Engine.Dag.BindAll | src/dagflow/core/node_base.py:123-143 | the loop of `sources >> node` leaves exactly the state and outcome of `NodeBase.BindAll` |
| Engine.Dag.LShift | src/dagflow/core/node_base.py:146-178 | `node << storage` leaves exactly the state and outcome of `NodeBase.LShift` |
| Engine.Dag.SetStrategy | src/dagflow/core/node_base.py:33-50 | the `input_strategy` setter leaves exactly the state of `NodeBase.SetStrategy` and changes nothing when it refuses |
| SegmentIndex.ParseMode | dagflow/lib/interpolation/segment_index.py:97-102 | exactly "left" and "right" are accepted, each as its own side; every other mode is an InitializationError |
| SegmentIndex.Past | dagflow/lib/interpolation/segment_index.py:135 | the number of edges a point is past is at most the number of edges, a valid insertion point |
| SegmentIndex.IsSorted | dagflow/lib/interpolation/segment_index.py:23-34 | answers true exactly when the edges are strictly increasing; an equal neighbour makes the array unsorted |
| SegmentIndex.PastBrackets | dagflow/lib/interpolation/segment_index.py:66-70 | on increasing edges the insertion point k brackets the point: `right` puts it in [a[k-1], a[k]), `left` in (a[k-1], a[k]] |
| SegmentIndex.ShiftedRightOnlyOverflow | dagflow/lib/interpolation/segment_index.py:37-45 | only an index one past the last edge can move, and only onto the last segment; applying the shift a second time changes nothing |
| SegmentIndex.ShiftedLeftOnlyUnderflow | dagflow/lib/interpolation/segment_index.py:48-55 | only an index before the first edge can move, and only to 1; applying the shift a second time changes nothing |
| SegmentIndex.ShiftInsideRight | dagflow/lib/interpolation/segment_index.py:37-45 | the index buffer is rewritten in place to the right shift of its old contents |
| SegmentIndex.ShiftInsideLeft | dagflow/lib/interpolation/segment_index.py:48-55 | the index buffer is rewritten in place to the left shift of its old contents |
| SegmentIndex.ShiftedRight | dagflow/lib/interpolation/segment_index.py:37-45 | the right shift keeps one index per fine point; which indices move, and where to, is stated by ShiftedRightOnlyOverflow |
| SegmentIndex.ShiftedLeft | dagflow/lib/interpolation/segment_index.py:48-55 | the left shift keeps one index per fine point; which indices move, and where to, is stated by ShiftedLeftOnlyUnderflow |
| SegmentIndex.SegmentsBracket | dagflow/lib/interpolation/segment_index.py:128-139 | on sorted edges each output index lies between 0 and the number of edges and the fine point lies in the segment it names; a point beyond the outer edge by no more than the tolerance is placed in the outer segment, one further out keeps the open-end index |
| SegmentIndex.Segments | dagflow/lib/interpolation/segment_index.py:128-139 | one segment index per fine point (what it brackets is stated by SegmentsBracket) |
| SegmentIndex.Compute | dagflow/lib/interpolation/segment_index.py:128-139 | unsorted coarse edges raise CalculationError and leave the output buffer untouched; sorted edges fill it with the segment index of every fine point |
| InputChecks.Each | src/dagflow/core/type_functions/input_type_functions.py:53-62 | a check over a list of inputs passes exactly when every input passes, and a failure is the failure of one of the inputs |
| InputChecks.HasInputs | src/dagflow/core/type_functions/input_type_functions.py:19-44 | without a key the node passes exactly when it has a positional input, or a keyword input when those count; with a key it passes exactly when the key resolves; every failure is a TypeFunctionError |
| InputChecks.NumberOfInputs | src/dagflow/core/type_functions/input_type_functions.py:47-50 | passes exactly when the positional count equals n, otherwise TypeFunctionError |
| InputChecks.Dimensions | src/dagflow/core/type_functions/input_type_functions.py:53-62 | passes exactly when every selected input has a shape with ndim axes; a missing shape is a TypeError, a wrong one a TypeFunctionError |
| InputChecks.Shapes | src/dagflow/core/type_functions/input_type_functions.py:65-74 | passes exactly when every selected input's shape is one of the allowed shapes |
| InputChecks.Sizes | src/dagflow/core/type_functions/input_type_functions.py:77-115 | with an exact size every input must have that size; with neither exact size nor bounds the call is a TypeFunctionError; otherwise every size must exist and lie within the bounds given |
| InputChecks.Dtypes | src/dagflow/core/type_functions/input_type_functions.py:118-127 | passes exactly when every selected input has the required dtype |
| InputChecks.SquareMatrices | src/dagflow/core/type_functions/input_type_functions.py:130-140 | passes exactly when every selected input is a matrix with two equal axes |
| InputChecks.BlockOrDiag | src/dagflow/core/type_functions/input_type_functions.py:143-169 | accepts exactly a 1-d diagonal or a 2-d matrix (square when asked) and returns its number of axes |
| InputChecks.MatricesOrDiagonals | src/dagflow/core/type_functions/input_type_functions.py:172-179 | succeeds exactly when every input is accepted, with a failure of one of them otherwise; the result is the largest number of axes, attained by some input, and 0 only for an empty selection |
| InputChecks.FirstAxis | src/dagflow/core/type_functions/input_type_functions.py:182-202 | the first axis length exists exactly for a known shape with at least one axis |
| InputChecks.LastAxis | src/dagflow/core/type_functions/input_type_functions.py:313-342 | the last axis length exists exactly for a known shape with at least one axis |
| InputChecks.ConsistentSquareOrDiag | src/dagflow/core/type_functions/input_type_functions.py:182-202 | an empty selection is an IndexError; otherwise it succeeds exactly when every input is a square matrix or a diagonal with the first input's first axis, returning 1 or 2, the largest number of axes |
| InputChecks.BroadcastableBasics | dagflow/typefunctions.py:363-364 | shape broadcasting is symmetric and every shape broadcasts with itself and with the scalar shape |
| InputChecks.BroadcastableLeadingOne | dagflow/typefunctions.py:363-364 | prefixing a shape with an axis of length 1 does not change what it broadcasts with |
| InputChecks.EquivOne | src/dagflow/core/type_functions/input_type_functions.py:228-267 | one input passes exactly when it agrees with the first input in every compared attribute; a failure is a TypeError or a TypeFunctionError |
| InputChecks.Equivalence | src/dagflow/core/type_functions/input_type_functions.py:205-267 | an empty selection is an IndexError; otherwise it passes exactly when every input after the first agrees with the first one |
| InputChecks.DefaultEquivalence | src/dagflow/core/type_functions/input_type_functions.py:205-267 | with the default flags the inputs pass exactly when they share dtype and shape with the first one and have the same edge outputs unless one side has none |
| InputChecks.BroadcastingRelaxes | src/dagflow/core/type_functions/input_type_functions.py:231-236 | inputs that pass without broadcasting, and whose shapes are known, also pass with broadcasting |
| InputChecks.ContentsRelax | src/dagflow/core/type_functions/input_type_functions.py:238-250 | inputs that pass without comparing axis contents also pass when the contents are compared |
| InputChecks.SameDtype | src/dagflow/core/type_functions/input_type_functions.py:270-283 | an empty selection is an IndexError; otherwise it returns the first input's dtype exactly when all inputs share it |
| InputChecks.SameShape | src/dagflow/core/type_functions/input_type_functions.py:286-299 | an empty selection is an IndexError; otherwise it returns the first input's shape exactly when all inputs share it |
| InputChecks.SameDtypeShapeAreEquivalence | src/dagflow/core/type_functions/input_type_functions.py:270-299 | the same-dtype and same-shape checks succeed exactly when the equivalence check with only the dtype, or only the shape, compared passes |
| InputChecks.Subtype | src/dagflow/core/type_functions/input_type_functions.py:302-310 | passes exactly when every selected input's dtype is a subtype of the required one |
| InputChecks.Paired | src/dagflow/core/type_functions/input_type_functions.py:313-330 | lists of equal length are kept; a single input on one side is repeated once for every input of the other; other lists are kept as they are |
| InputChecks.MulShapes | src/dagflow/core/type_functions/input_type_functions.py:331-342 | succeeds exactly when the lists have equal length and every left factor's last axis equals the right factor's first axis, giving rows by columns for each product; lists of different lengths whose common pairs agree raise ValueError |
| InputChecks.MatrixMultipliable | src/dagflow/core/type_functions/input_type_functions.py:313-342 | succeeds exactly when the paired lists have equal length and every pair is multipliable; one product per pair |
| InputChecks.SingleLeftFactor | src/dagflow/core/type_functions/input_type_functions.py:313-342 | with one left factor, every right factor is multiplied by it and its last axis matches each right factor's first |
| InputChecks.MaxSize | src/dagflow/core/type_functions/input_type_functions.py:345-354 | an empty selection is an IndexError; one input gives its size, even a missing one; with more inputs it fails with TypeError exactly when a size is missing, and otherwise returns the largest size, attained by some input |
| InputChecks.DivisibleByN | src/dagflow/core/type_functions/input_type_functions.py:357-363 | passes exactly when N is non-zero and divides the positional count; N equal to 0 is a ZeroDivisionError and any other failure a TypeFunctionError |
| InputChecks.DivisibleAgreesWithMultiplicity | dagflow/typefunctions.py:814-818 | the shortcut for N equal to 1 changes no outcome: the earlier multiplicity check decides every count and every N alike |
| InputChecks.Multiplicity | dagflow/typefunctions.py:814-818 | the earlier multiplicity check passes exactly when N is non-zero and divides the number of positional inputs; N = 0 raises ZeroDivisionError and any other failure TypeFunctionError |
| CopyTypes.CopyFieldsIdempotent | src/dagflow/core/type_functions/copy_type_functions.py:40-48 | copying the same input twice gives what copying it once gives, and requesting no field leaves the output as it was |
| CopyTypes.Sources | src/dagflow/core/type_functions/copy_type_functions.py:65-66 | a single selected input is repeated once per output; otherwise the inputs are used as they are; every source is one of the selected inputs |
| CopyTypes.CopyPairs | src/dagflow/core/type_functions/copy_type_functions.py:68-69 | the pair loop succeeds exactly when there are as many sources as outputs and otherwise raises ValueError |
| CopyTypes.CopyPairsFrame | src/dagflow/core/type_functions/copy_type_functions.py:68-69 | the pair loop changes no descriptor outside the outputs, and in the outputs no field that was not requested |
| CopyTypes.CopyFromOne | src/dagflow/core/type_functions/copy_type_functions.py:65-69 | one input repeated for every output gives each output that input's requested fields and leaves every other descriptor as it was |
| CopyTypes.CopyEach | src/dagflow/core/type_functions/copy_type_functions.py:72-101 | the dtype or shape copy succeeds exactly when there is one input or as many inputs as outputs, changes only the outputs and only the requested field |
| CopyTypes.SingleInputToAll | src/dagflow/core/type_functions/copy_type_functions.py:81-85 | a single input that is not itself an output is copied to every output, and nothing else changes |
| CopyTypes.PreferStep | src/dagflow/core/type_functions/copy_type_functions.py:55-62 | one turn of the preference loop either keeps the current choice or moves it to the candidate |
| CopyTypes.Prefer | src/dagflow/core/type_functions/copy_type_functions.py:50-63 | the preference loop chooses one of the selected inputs, not before the current choice unless it is the current choice; it fails, with TypeError, exactly when a size it compares is missing |
| CopyTypes.PreferKeepsEdges | src/dagflow/core/type_functions/copy_type_functions.py:58-59 | with `prefer_input_with_edges` the choice never moves from an input with edges to one without |
| CopyTypes.PreferEdgesOnly | src/dagflow/core/type_functions/copy_type_functions.py:50-63 | with only `prefer_input_with_edges`, when some input has edges the choice is the last input with edges |
| CopyTypes.PreferEdgesNone | src/dagflow/core/type_functions/copy_type_functions.py:50-63 | with only `prefer_input_with_edges`, when no input has edges the choice is the last input |
| CopyTypes.PreferLargestFirst | src/dagflow/core/type_functions/copy_type_functions.py:55-57 | with only `prefer_largest_input`, the choice is the first input of the largest size: nothing is larger and everything before it is strictly smaller |
| CopyTypes.CopyFromInputs | src/dagflow/core/type_functions/copy_type_functions.py:21-69 | no requested field means nothing happens; otherwise only outputs and only requested fields change, and without a preference it is the plain pairwise copy |
| CopyTypes.PreferenceCopiesChosen | src/dagflow/core/type_functions/copy_type_functions.py:50-69 | with a preference and several inputs the copy succeeds, and every output receives the requested fields of the one chosen input |
| CopyTypes.PreferredInput | src/dagflow/core/type_functions/copy_type_functions.py:50-63 | the loop over the inputs computes the preference choice |
| CopyTypes.CopyLoop | src/dagflow/core/type_functions/copy_type_functions.py:68-69 | the descriptors and the outcome after the loop are those of the pairwise copy of the old descriptors |
| CopyTypes.CopyFromInputsToOutputs | src/dagflow/core/type_functions/copy_type_functions.py:21-69 | the descriptors and the outcome are those of the copy specified on the old descriptors |
| CopyTypes.CopyDtype | src/dagflow/core/type_functions/copy_type_functions.py:72-85 | the descriptors and the outcome are those of the dtype-only copy of the old descriptors |
| CopyTypes.CopyShape | src/dagflow/core/type_functions/copy_type_functions.py:88-101 | the descriptors and the outcome are those of the shape-only copy of the old descriptors |
| CopyTypes.CopyDtypeShapeAreCopyFrom | src/dagflow/core/type_functions/copy_type_functions.py:21-101 | the dtype and shape copies are the general copy with one field requested and no preference; the dtype copy keeps shapes and the shape copy keeps dtypes |
| AxesChecks.EdgesDimension | dagflow/core/type_functions/axes_type_functions.py:37-63 | passes exactly when every selected input has edges and every edge is an output with the requested number of axes |
| AxesChecks.EdgesEquivalence | dagflow/core/type_functions/axes_type_functions.py:66-83 | with a reference, passes exactly when every input has those edges; without one, an empty selection is an IndexError and otherwise every input must have the first input's edges |
| AxesChecks.EdgesAreOutputs | dagflow/core/type_functions/axes_type_functions.py:86-123 | passes exactly when every edge of every selected input and output is an output; otherwise TypeFunctionError |
| AxesChecks.EdgeLengthsFrom | dagflow/core/type_functions/axes_type_functions.py:143-150 | the per-axis loop passes exactly when every edge is an output whose first axis is one longer than the array's axis |
| AxesChecks.ConsistentOne | dagflow/core/type_functions/axes_type_functions.py:132-150 | one output passes exactly when it has no edges, or one edge per axis each one longer than its axis |
| AxesChecks.EdgesConsistency | dagflow/core/type_functions/axes_type_functions.py:126-150 | passes exactly when every selected output has consistent edges |
| AxesChecks.ConsistentByConstruction | dagflow/core/type_functions/axes_type_functions.py:126-150 | edges built with one 1-d output per axis, each one longer than the axis, pass the consistency check |
| AxesChecks.EdgesFitFrom | dagflow/core/type_functions/axes_type_functions.py:179-192 | the per-axis loop passes exactly when each parent output is 1-d and one longer than its axis; the first axis that does not fit decides the error: TypeFunctionError exactly for a parent that is not 1-d, TypeError otherwise (a 1-d parent of the wrong length fails while its message applies `len` to an integer) |
| AxesChecks.EdgesAssigned | dagflow/core/type_functions/axes_type_functions.py:156-194 | assigned edges are kept with `ignore_assigned` and an error otherwise; unassigned edges succeed exactly when the parents match the axes in number and length, and then become the parents |
| AxesChecks.EdgesLengthMismatch | dagflow/core/type_functions/axes_type_functions.py:186-191 | an output of shape (3,) over an edges output of shape (5,) fails with TypeError, not TypeFunctionError |
| AxesChecks.AssignedEdgesConsistent | dagflow/core/type_functions/axes_type_functions.py:156-194 | newly assigned edges pass the consistency check of dagflow/core/type_functions/axes_type_functions.py:126 |
| AxesChecks.Overlaid | dagflow/core/type_functions/axes_type_functions.py:238-245 | the new meshes take the first positions and the old ones beyond them remain |
| AxesChecks.Overwrite | dagflow/core/type_functions/axes_type_functions.py:239-245 | replacing each position in place, appending past the end, gives the overlaid list |
| AxesChecks.MeshesPlan | dagflow/core/type_functions/axes_type_functions.py:206-236 | assigned meshes are left alone with `ignore_assigned` and an error without `overwrite_assigned`; meshes are written only when the output's shape is known and equals each parent's, and their count matches the axes (or, when overwriting, the old meshes) |
| AxesChecks.MeshesAssigned | dagflow/core/type_functions/axes_type_functions.py:197-247 | only the meshes change; when they do, every parent has the output's shape and the meshes become the parents, or (when overwriting) the parents overlaid on the old meshes |
| AxesChecks.InconsistentMeshesIgnored | dagflow/core/type_functions/axes_type_functions.py:219-227 | a count of meshes that fits neither the axes nor the old meshes leaves the output untouched with `ignore_inconsistent_number_of_meshes` and is a TypeFunctionError without it |
| AxesChecks.AssignOne | dagflow/core/type_functions/axes_type_functions.py:285-289 | one assignment changes only the visited output, and only its edges or only its meshes |
| AxesChecks.AssignStep | dagflow/core/type_functions/axes_type_functions.py:285-289 | the loop body for one visited output: it assigns edges, refusing overwrite and consistency options with TypeError, or meshes, and gives the outcome `AssignOne` specifies |
| AxesChecks.Visited | dagflow/core/type_functions/axes_type_functions.py:270-282 | no more outputs are visited than selected |
| AxesChecks.ParentsFor | dagflow/core/type_functions/axes_type_functions.py:270-286 | every parent given to an assigner is a selected input |
| AxesChecks.AxesFrom | dagflow/core/type_functions/axes_type_functions.py:282-289 | the loop keeps the number of descriptors |
| AxesChecks.AxesAssigned | dagflow/core/type_functions/axes_type_functions.py:250-289 | asking for both or neither of edges and meshes is a TypeFunctionError with nothing changed |
| AxesChecks.AxesFromFrame | dagflow/core/type_functions/axes_type_functions.py:270-289 | only the selected outputs change, and only their edges when edges are assigned or only their meshes otherwise |
| AxesChecks.SameParentsAssigned | dagflow/core/type_functions/axes_type_functions.py:270-286 | with the same parents for every output, a successful edges assignment gives every visited output that had no edges exactly those parents as edges |
| AxesChecks.SameParentsKept | dagflow/core/type_functions/axes_type_functions.py:270-286 | once an output holds the common parents as edges, later visits keep them |
| AxesChecks.AssignAxes | dagflow/core/type_functions/axes_type_functions.py:250-289 | the descriptors and the outcome are those of the assignment specified on the old descriptors |
| AxesChecks.CopyEdges | dagflow/core/type_functions/axes_type_functions.py:21-34 | the descriptors and the outcome are those of the edges-only copy of the old descriptors |
| Integrator.StartMonotone | dagflow/lib/integration/integrator_core.py:35-39 | with non-negative orders the bins are laid end to end: a later bin never starts before an earlier one, nor before the first point |
| Integrator.StartPrefix | dagflow/lib/integration/integrator_core.py:35-39 | where a bin starts depends only on the orders before it |
| Integrator.StartIsSum | dagflow/lib/integration/integrator_core.py:35-39 | the start of bin i is the sum of the first i orders, so the end of the last bin is the sum the orders check compares with the data length |
| Integrator.SumSplit | dagflow/lib/integration/integrator_core.py:216-217 | a sum splits at any point into the sums of the two parts |
| Integrator.Span | dagflow/lib/integration/integrator_core.py:38 | `[a:b]` on an axis selects a range inside it: bounds on the axis are kept as they are, and a stop that does not pass the start (both bounds of one sign) selects nothing |
| Integrator.Bins | dagflow/lib/integration/integrator_core.py:30-39 | one result per order, the i-th being bin i |
| Integrator.Bin | dagflow/lib/integration/integrator_core.py:30-39 | a bin of order zero sums nothing, and a bin lying on the data sums exactly its run of points |
| Integrator.Covered | dagflow/lib/integration/integrator_core.py:35-39 | non-negative orders cover at most the data, and exactly `sum(orders)` points when that fits |
| Integrator.BinsPartition | dagflow/lib/integration/integrator_core.py:30-39 | non-negative orders partition the points they cover: the integral keeps their total |
| Integrator.BinsPrefix | dagflow/lib/integration/integrator_core.py:35-39 | dropping the last order leaves the other bins as they were |
| Integrator.LastBin | dagflow/lib/integration/integrator_core.py:35-39 | with non-negative orders the last bin runs from the points the others cover to the points all cover |
| Integrator.PrefixSplit | dagflow/lib/integration/integrator_core.py:38 | the sum of a prefix of the data splits at any earlier point |
| Integrator.CheckedBinsKeepTotal | dagflow/lib/integration/integrator_core.py:210-235 | non-negative orders that pass the check put every point in exactly one bin: the integral keeps the total of the data |
| Integrator.NegativeOrders | dagflow/lib/integration/integrator_core.py:30-39 | orders the check accepts may be negative: over three points [2, -1, 2] counts the middle point twice and [4, -1] gives every point to the first bin and nothing to the second |
| Integrator.Integrate1d | dagflow/lib/integration/integrator_core.py:30-39 | for any integer orders and a result at least as long as the orders, the first len(orders) cells hold, bin by bin, the data between consecutive running sums of the orders, sliced as Python slices them, and the cells beyond are untouched |
| Integrator.NoColumns | dagflow/lib/integration/integrator_core.py:55 | a block with no columns adds up to zero |
| Integrator.RowSum | dagflow/lib/integration/integrator_core.py:55 | a row segment of one column sums to that element |
| Integrator.BlockSum | dagflow/lib/integration/integrator_core.py:55 | a block of one row sums to that row segment |
| Integrator.LastColumn | dagflow/lib/integration/integrator_core.py:55 | a block's sum is the sum without its last column plus that column, read as a row of the transposed view |
| Integrator.Transposed | dagflow/lib/integration/integrator_core.py:66-67 | summing a block of the transpose is summing the transposed block |
| Integrator.Block | dagflow/lib/integration/integrator_core.py:55 | a block of an x-bin or a y-bin of order zero sums nothing |
| Integrator.Integrate2d | dagflow/lib/integration/integrator_core.py:43-57 | for any integer orders and a result with at least as many rows and columns as there are x and y orders, every cell (i, j) within the orders is the sum of the data over x-bin i and y-bin j, each axis sliced as Python slices it, and every other cell is untouched |
| Integrator.Strip | dagflow/lib/integration/integrator_core.py:71 | a strip of a bin of order zero sums nothing |
| Integrator.Integrate2to1d | dagflow/lib/integration/integrator_core.py:61-72 | for any integer orders and a result at least as long as the orders, every cell i within the orders is the sum over all columns of the rows of bin i (sliced as Python slices them), of the data or of its transpose, and the cells beyond are untouched |
| Integrator.DroppedAxisIsSingleBin | dagflow/lib/integration/integrator_core.py:187-194 | dropping an axis that holds a single bin loses nothing: the one-dimensional result equals the one row or column of the two-dimensional integral |
| Integrator.CheckOrders | dagflow/lib/integration/integrator_core.py:210-235 | orders pass exactly when they are a 1-d integer input with data summing to the axis length and 1-d edges; orders without data raise CalculationError and a wrong sum TypeFunctionError; on success the result is the first edges output and its length |
| Integrator.CheckIntegrands | dagflow/lib/integration/integrator_core.py:168-182 | the integrands and the weights pass exactly when the first input has the expected number of axes and a floating dtype, and every input and the weights share its shape and dtype; an unknown first shape is a TypeError |
| Integrator.TypePlan | dagflow/lib/integration/integrator_core.py:160-207 | no inputs means nothing is done; otherwise success needs every check; the plan has the first input's dtype, the 1-d kernel exactly without y orders, the 2-d kernel exactly for a 2-axis result, and drops y (when its edges have length 2) before x only with `dropdim`; the result's shape and edges follow the kept axes |
| Integrator.CheckedOrdersFit | dagflow/lib/integration/integrator_core.py:210-235 | orders that pass the check end their last bin exactly at the axis length |
| Integrator.Core.constructor | dagflow/lib/integration/integrator_core.py:124-143 | the weights and x orders inputs are recorded, a y orders input is created only for ndim 2, and the y orders reference is None afterwards |
| Integrator.Core.Taint | dagflow/lib/integration/integrator_core.py:149-158 | tainting fails with CriticalError exactly when the caller is the recorded x or y orders input |
| Integrator.Core.TypeFunction | dagflow/lib/integration/integrator_core.py:160-207 | the outcome is that of the type plan; with inputs the y orders reference is looked up, and the kernel is set only when every check passes |
| Profiling.ReachableChild | dagflow/tools/profiling/utils.py:12-16 | a child of a node reachable from the sources is reachable too |
| Profiling.SupportedLeads | dagflow/tools/profiling/utils.py:34-40 | from every gathered node a path of gathered nodes leads to a source or a sink |
| Profiling.Nodes | dagflow/tools/profiling/utils.py:44 | the node numbers below n, exactly |
| Profiling.Smaller | dagflow/tools/profiling/utils.py:44-67 | a proper subset has fewer elements (the measure by which the walk ends) |
| Profiling.AddSink | dagflow/tools/profiling/utils.py:50-51 | adding a sink child of the current node keeps the walk's invariant |
| Profiling.AddPath | dagflow/tools/profiling/utils.py:53-55 | adding the current path to a related child keeps the walk's invariant |
| Profiling.PathSupported | dagflow/tools/profiling/utils.py:53-55 | the nodes added with the path are supported by the related child |
| Profiling.Scan | dagflow/tools/profiling/utils.py:49-60 | the scan of a node's children keeps the invariant and only adds related nodes; it stops at an unvisited child that is not related, or else every child is visited or related |
| Profiling.Step | dagflow/tools/profiling/utils.py:47-67 | one turn of the loop keeps the invariant and either visits a new node or adds an unvisited node to the path |
| Profiling.WalkFrom | dagflow/tools/profiling/utils.py:45-67 | the loop of one start node ends and keeps the invariant |
| Profiling.Walk | dagflow/tools/profiling/utils.py:41-67 | every source is gathered; every gathered node is reachable from a source and lies on a path of gathered nodes to a source or a sink |
| Profiling.Descend | dagflow/tools/profiling/utils.py:56-59 | descending into an unvisited child keeps the path well formed and the child was not on the path |
| Profiling.Finish | dagflow/tools/profiling/utils.py:61-63 | a node whose children are all visited or related may be marked visited |
| Profiling.Backtrack | dagflow/tools/profiling/utils.py:64-67 | backing up to the node below on the stack keeps the path well formed once the finished node is visited |
| Profiling.CheckReachable | dagflow/tools/profiling/utils.py:25-31 | passes exactly when every sink was gathered, otherwise ValueError |
| Profiling.GatherRelatedNodes | dagflow/tools/profiling/utils.py:34-69 | the result holds every source and every sink, only nodes reachable from a source, each on a gathered path to a source or a sink; a sink that no source reaches raises ValueError |
| Profiling.SplitMembers | dagflow/tools/profiling/utils.py:72-85 | a node without a parent among the nodes is a source, one with parents but no children among them is a sink, and one with both is neither |
| Profiling.Split | dagflow/tools/profiling/utils.py:72-85 | the sources and sinks found among the first k nodes are taken from those nodes, at most k of them in all |
| Profiling.SplitDisjoint | dagflow/tools/profiling/utils.py:72-85 | no node is both a source and a sink, and every listed node is one of the given nodes |
| Profiling.RevealSourceSink | dagflow/tools/profiling/utils.py:72-85 | the loop computes the sources and sinks of the split, in the order of the nodes |
| Parameter.Wire | dagflow/parameters/parameter.py:53-100 | the connectible output, when there is one, is the output the value is read from; without an index it is element 0 of the connectible (or value) output; with an index and `make_view` it is a one-element view of it; with an index and no view it is the value output and nothing is connectible |
| Parameter.Name | dagflow/parameters/parameter.py:128-135 | no connectible output gives the empty name; otherwise the first label path when it is non-empty, else the node's name |
| Parameter.Shift | dagflow/parameters/parameter.py:146-149 | `>>` fails with RuntimeError exactly when there is no connectible output |
| Parameter.ShiftConnectsValueOutput | dagflow/parameters/parameter.py:53-100 | `>>` fails exactly for a parameter made with an index and without `make_view`; otherwise it connects the output the value is read from |
| Parameter.SetValue | dagflow/parameters/parameter.py:112-114 | setting writes the new value unless the node is frozen, and never touches the saved stack |
| Parameter.Pushed | dagflow/parameters/parameter.py:151-159 | the current value is saved first; a number is then set (unless frozen), no value leaves it, anything else raises RuntimeError; the result is the value afterwards |
| Parameter.Popped | dagflow/parameters/parameter.py:161-164 | the last saved value is taken off the stack and set (unless frozen); an empty stack changes nothing; the result is the value afterwards |
| Parameter.PopUndoesPush | dagflow/parameters/parameter.py:151-164 | a pop restores exactly the state before a push, whatever was pushed, even when the push raised |
| Parameter.SetAll | dagflow/parameters/parameter.py:112-114 | values set one after another leave the last of them (nothing when frozen) and the stack as it was |
| Parameter.WithRestores | dagflow/parameters/parameter.py:166-170 | a `with` block restores the value held on entry and the stack, whatever values were set inside |
| Parameter.RejectedPushGrowsStack | dagflow/parameters/parameter.py:151-157 | a push of something that is not a number raises, yet the saved value stays on the stack, one deeper than before |
| Parameter.Par.constructor | dagflow/parameters/parameter.py:38-101 | the parameter is wired as specified and starts with an empty stack |
| Parameter.Par.Push | dagflow/parameters/parameter.py:151-159 | the new value, stack and result are those of a push on the old state; no other element of the data changes |
| Parameter.Par.Pop | dagflow/parameters/parameter.py:161-164 | the new value, stack and result are those of a pop on the old state; no other element of the data changes |
| Parameter.Par.Enter | dagflow/parameters/parameter.py:166-167 | entering is a push of no value: the value is saved and returned unchanged |
| Parameter.Par.Exit | dagflow/parameters/parameter.py:169-170 | leaving is a pop |
| Labels.FirstMatch | dagflow/core/labels.py:113-116 | nothing when no pattern equals the whole text; otherwise the substitution of the first pattern that does |
| Labels.Substituted | dagflow/core/labels.py:105-123 | no substitutions or an empty text leave the text as it is; in whole-string mode the result is the text itself or the substitution of a pattern equal to it |
| Labels.ApplySubstitutions | dagflow/core/labels.py:105-123 | the loops compute the substitution specified for the mode |
| Labels.AbsentPatternsChangeNothing | dagflow/core/labels.py:117-119 | non-empty patterns that occur nowhere in the text leave it unchanged: no replacement creates an occurrence for a later one |
| Labels.IdentitySubstitutions | dagflow/core/labels.py:105-123 | substituting every pattern by itself changes nothing in either mode |
| Labels.LatexToRoot | dagflow/core/labels.py:650-659 | an absent or empty text is returned as it is; otherwise a text is returned |
| Labels.RootTitleHasNoLatex | dagflow/core/labels.py:650-659 | a converted title contains no backslash and no dollar sign |
| Labels.VerdictMeaning | dagflow/core/labels.py:244-267 | the mask accepts exactly when, for every category the index has, the criterion accepts the entry's value or position; it rejects only for such a category whose criterion rejects, and raises TypeError only for a category whose criterion is a number |
| Labels.MergeShape | dagflow/core/labels.py:60-66 | the merged list starts with the new list, then holds distinct names from the old one not already in it, so every old name is kept and a list without duplicates stays so |
| Labels.MergeNames | dagflow/core/labels.py:61-65 | the loop appends the old names missing from the new list, as specified |
| Labels.MergeIdempotent | dagflow/core/labels.py:60-66 | merging the same list again changes nothing |
| Labels.MergeAllPresent | dagflow/core/labels.py:62-64 | old names all present in the new list add nothing |
| Labels.MergeSplit | dagflow/core/labels.py:62-64 | merging the concatenation of two old lists is merging one then the other |
| Labels.MergeFresh | dagflow/core/labels.py:62-64 | old names absent from the new list and not repeated are appended in their order |
| Labels.Lookup | dagflow/core/labels.py:61 | nothing exactly when no item has the key; otherwise the value of an item with that key |
| Labels.Store | dagflow/core/labels.py:66 | after storing, the key gives the new value, every other key gives what it gave before, and no other item is invented |
| Labels.StoreTwice | dagflow/core/labels.py:66 | storing the same value twice is storing it once |
| Labels.Patch | dagflow/core/labels.py:60-66 | the patch succeeds exactly when the key is absent or holds a list, and then the key holds the new list merged with the previous one; a value that is not a list raises TypeError with nothing changed; other keys are untouched |
| Labels.AppendLists | dagflow/core/labels.py:56-75 | anything but a dictionary is left alone; a dictionary with sub-dictionaries keeps its keys and layout and is not patched itself; one without is patched |
| Labels.AppendListsFrom | dagflow/core/labels.py:69-72 | the walk over the items keeps their keys and layout |
| Labels.AppendListsTwice | dagflow/core/labels.py:56-75 | a second call with the same list, after a first that succeeded, changes nothing |
| Labels.AppendListsFromTwice | dagflow/core/labels.py:69-72 | the walk over a dictionary already walked with the same list gives the same result |
| Labels.IndexOf | dagflow/core/labels.py:281-282 | the first position of the value, or nothing exactly when it is absent |
| Labels.Found | dagflow/core/labels.py:280-287 | nothing exactly when no category holds the value; otherwise a category that holds it and its first position there |
| Labels.SiftAppend | dagflow/core/labels.py:279-291 | one more value joins the found or the unfound list according to whether the index holds it |
| Labels.Sift | dagflow/core/labels.py:279-291 | the values listed are taken from the given ones, each found in the index or each not found, as asked |
| Labels.RemoveFirst | dagflow/core/labels.py:292-293 | `list.remove` takes out at most one element, and a list it leaves at full length is unchanged |
| Labels.Indexed | dagflow/core/labels.py:279-288 | every recorded category holds a value from the list at the recorded position |
| Labels.RemoveFirstPast | dagflow/core/labels.py:292-293 | removing a value that appears first after a front without it takes out that copy only |
| Labels.RemoveUnfound | dagflow/core/labels.py:289-293 | removing the unfound values, one copy each, leaves exactly the found values in order |
| Labels.KeptAreFound | dagflow/core/labels.py:279-293 | the values kept are exactly those some category holds |
| Labels.IndexedMeaning | dagflow/core/labels.py:279-288 | each recorded entry is a value from the list with the position its category has it at, and every found value's category has an entry |
| Labels.FirstCategory | dagflow/core/labels.py:280-288 | the search over the categories finds the first one holding the value and its position |
| Labels.Scan | dagflow/core/labels.py:279-291 | the loop records each found value under its category and lists the others for removal |
| Labels.RemoveAll | dagflow/core/labels.py:292-293 | the loop removes the listed values one copy at a time |
| Labels.SplitDots | dagflow/core/labels.py:277 | splitting gives at least one part |
| Labels.SplitJoin | dagflow/core/labels.py:277 | splitting at dots gives dot-free parts that join back to the text |
| Labels.SlotOf | dagflow/core/labels.py:532-551 | a known name refers to its own attribute and an attribute is always a known name |
| Labels.Read | dagflow/core/labels.py:339-341 | an unknown name raises AttributeError; `latex` falls back on the text and `latexunit` on the unit when unset or empty |
| Labels.UnsetMeansEmpty | dagflow/core/labels.py:339-341 | an attribute that reads as unset holds nothing, or, for the two with a fallback, possibly the empty text |
| Labels.WithDefault | dagflow/core/labels.py:541-546 | an unknown name raises AttributeError with nothing changed; an attribute that reads as set is returned with nothing changed |
| Labels.DefaultSticks | dagflow/core/labels.py:541-546 | after `setdefault` the attribute reads as the returned value, only its own slot may have changed, and a second call with any default returns the same |
| Labels.AllDefaults | dagflow/core/labels.py:548-551 | fails, with AttributeError, exactly when some given name is unknown |
| Labels.DefaultsFillOnlyUnset | dagflow/core/labels.py:548-551 | only attributes that read as unset change, each to a default given for it |
| Labels.Label.constructor | dagflow/core/labels.py:171-178 | every attribute starts unset, and the paths, index values, index dictionary and plot options empty |
| Labels.Label.Plotable | dagflow/core/labels.py:499-504 | plotable unless the plot method is "none"; no plot options means plotable |
| Labels.Label.IndexInMask | dagflow/core/labels.py:244-267 | the loop gives the verdict specified for the mask on the label's index dictionary |
| Labels.Label.BuildIndexDict | dagflow/core/labels.py:273-293 | no index, or an index dictionary already filled, changes nothing; otherwise the values (from the first path when there are none) are recorded under their first category and only the found values are kept; no other attribute changes |
| Labels.Label.SetDefault | dagflow/core/labels.py:541-546 | the attributes and the result are those specified for `setdefault`; nothing else changes |
| Labels.Label.SetDefaults | dagflow/core/labels.py:548-551 | the attributes and the outcome are those specified for `setdefaults`; nothing else changes |
| LoadParameters.FormatsAccepted | src/dagflow/bundles/load_parameters.py:68-80 | exactly fourteen formats are accepted: the word "value", the list ["value"], and "value" and/or "central" in one of four arrangements followed by one of the three uncertainty fields |
| LoadParameters.CheckConfig | src/dagflow/bundles/load_parameters.py:28-45 | the configuration passes exactly when the format is accepted and every entry is consistent with it: a tuple with as many numbers as the format has elements, or a single number for a one-element format; any failure is a SchemaError |
| LoadParameters.CheckCorrelationSizes | src/dagflow/bundles/load_parameters.py:83-88 | true exactly when the matrix has one row per name and every row one column per name |
| LoadParameters.GetProcessor | src/dagflow/bundles/load_parameters.py:172-185 | a word gets the one-value processor; an empty list cannot be indexed (IndexError) and anything that is neither a word nor a list cannot be indexed either (TypeError) |
| LoadParameters.ProcessorOfAccepted | src/dagflow/bundles/load_parameters.py:172-185 | each accepted format gets the processor its uncertainty field names: absolute, relative or percent, and the plain processors for "value" and ["value"] |
| LoadParameters.ZipUpTo | src/dagflow/bundles/load_parameters.py:145 | the keys of the zipped dictionary are exactly the names paired |
| LoadParameters.Zip | src/dagflow/bundles/load_parameters.py:145 | the keys are exactly the names that have a number to pair with |
| LoadParameters.Paired | src/dagflow/bundles/load_parameters.py:144-151 | a single number cannot be paired (TypeError); on success both the central value and the value are present |
| LoadParameters.Process | src/dagflow/bundles/load_parameters.py:140-169 | the one-value processor takes the entry, whatever its shape, as both central value and value with no uncertainty; the others fail with TypeError on a single number |
| LoadParameters.LoadAsWritten | src/dagflow/bundles/load_parameters.py:140-185 | as written, a word format loads the entry, whatever its shape, as both central value and value with no uncertainty; a format that is neither word nor list raises TypeError and the empty list IndexError |
| LoadParameters.Load | src/dagflow/bundles/load_parameters.py:28-45 | the corrected processing departs from the code as written only on entries the check admits for a one-element format |
| LoadParameters.OneElementFormatsAsWritten | src/dagflow/bundles/load_parameters.py:28-45 | the check admits a single number for the list ["value"], yet processing it raises TypeError; it admits a one-element tuple for the word "value", and processing makes the tuple itself the value |
| LoadParameters.CheckedEntriesLoad | src/dagflow/bundles/load_parameters.py:237-250 | with the corrected processing, every entry that passes the check is loaded: a one-element format gives its number as central value and value; otherwise the central value and value come from their fields (one standing in for the other) and the uncertainty is the absolute one, the relative one times the absolute central value, or one hundredth of the percentage times it |
| LoadParameters.PairedFields | src/dagflow/bundles/load_parameters.py:144-151 | for an accepted multi-field format, pairing succeeds, keeps the uncertainty field, and fills a missing central value or value from the other |
| LoadParameters.LoadFields | src/dagflow/bundles/load_parameters.py:154-169 | an accepted multi-field entry loads with the central value, value and uncertainty its fields give |
| GIndex.MakeName | subtrees/gindex/gindex/gindex.py:49-51 | the short name is kept; an empty full name becomes the short one, any other is kept |
| GIndex.NameGet | subtrees/gindex/gindex/gindex.py:83-92 | "s"/"short" give the short name and "f"/"full" the full one; exactly the other keys raise ValueError |
| GIndex.PickIsGet | subtrees/gindex/gindex/gindex.py:220-223 | picking the name by a valid name mode is reading the name with that mode as key |
| GIndex.MakeInstance | subtrees/gindex/gindex/gindex.py:121-128 | an instance is made, with the given fields, exactly when the name mode is valid; otherwise ValueError |
| GIndex.Formatted | subtrees/gindex/gindex/gindex.py:216-230 | the separator, then (with `withname`) the name picked by the mode and the name separator, then the value |
| GIndex.FormattedWith | subtrees/gindex/gindex/gindex.py:232-272 | fails, with ValueError, exactly when a name is asked for with an invalid mode |
| GIndex.FormattedWithOwnOptions | subtrees/gindex/gindex/gindex.py:216-272 | formatting with the instance's own options gives the default formatting |
| GIndex.FormattedWithoutName | subtrees/gindex/gindex/gindex.py:262-272 | without a name the mode and name separator play no part: the separator (the instance's own when absent) followed by the value |
| GIndex.FormattedInjective | subtrees/gindex/gindex/gindex.py:216-230 | two instances that differ only in value format differently |
| GIndex.MakeIndex | subtrees/gindex/gindex/gindex.py:334-347 | an invalid name mode or repeated values raise ValueError; otherwise a list, tuple or set of values is kept as a tuple and any other container raises TypeError; a made index has distinct values |
| GIndex.Instances | subtrees/gindex/gindex/gindex.py:349-361 | one instance per value, in order, with the index's name and options |
| GIndex.InstancesFormatDistinctly | subtrees/gindex/gindex/gindex.py:349-361 | the instances of an index with distinct values format to distinct strings |
| GNIndex.UnambiguousIsKeyed | subtrees/gindex/gindex/gnindex.py:13-53 | a dictionary in which every string names at most one entry has distinct keys |
| GNIndex.Find | subtrees/gindex/gindex/gnindex.py:24-28 | the search finds nothing exactly when no entry matches the key, and otherwise the first entry that matches |
| GNIndex.FindFirst | subtrees/gindex/gindex/gnindex.py:24-28 | the first matching entry is the one found |
| GNIndex.OnlyMatch | subtrees/gindex/gindex/gnindex.py:13-22 | in an unambiguous dictionary a key matches at most one entry |
| GNIndex.GetItem | subtrees/gindex/gindex/gnindex.py:24-29 | reading succeeds exactly when the key is in the dictionary, giving the value of a matching entry; otherwise KeyError |
| GNIndex.NewName | subtrees/gindex/gindex/gnindex.py:31-37 | the name an unknown key is stored under matches that key |
| GNIndex.SetItem | subtrees/gindex/gindex/gnindex.py:31-39 | an existing key's first matching entry takes the value in its place and nothing else changes; an unknown key is appended; afterwards the key reads as the value and distinct keys stay distinct |
| GNIndex.DelItem | subtrees/gindex/gindex/gnindex.py:41-48 | deleting succeeds exactly when the key is in the dictionary and removes the first matching entry only; otherwise KeyError |
| GNIndex.DeleteUndoesSet | subtrees/gindex/gindex/gnindex.py:31-48 | storing under an absent key and deleting it again restores the dictionary |
| GNIndex.SetThenGet | subtrees/gindex/gindex/gnindex.py:24-39 | after storing, the key reads as the new value and every other key as before |
| GNIndex.NameDict.constructor | subtrees/gindex/gindex/gnindex.py:13-22 | the dictionary starts with the given entries |
| GNIndex.NameDict.Get | subtrees/gindex/gindex/gnindex.py:24-29 | the search over the entries gives the lookup specified for the key |
| GNIndex.NameDict.Set | subtrees/gindex/gindex/gnindex.py:31-39 | the entries become those of storing the value under the key |
| GNIndex.NameDict.Delete | subtrees/gindex/gindex/gnindex.py:41-48 | a present key's entry is removed; an absent key gives KeyError with the entries unchanged |
| GNIndex.Collect | subtrees/gindex/gindex/gnindex.py:344-345 | the dictionary built from entries has distinct keys |
| GNIndex.CollectKeyed | subtrees/gindex/gindex/gnindex.py:344-345 | entries with distinct names build exactly themselves |
| GNIndex.Vals | subtrees/gindex/gindex/gnindex.py:498-499 | the values of a dictionary, one per entry, in order |
| GNIndex.RemoveEntry | subtrees/gindex/gindex/gnindex.py:497 | removing an entry removes exactly its value from the dictionary's values and keeps the other entries |
| GNIndex.ValsAppend | subtrees/gindex/gindex/gnindex.py:498-499 | the values of two joined dictionaries are the values of each in turn |
| GNIndex.PassPermutes | subtrees/gindex/gindex/gnindex.py:497 | popping the entries the order names takes values from the dictionary and leaves the rest: together they are the dictionary's values |
| GNIndex.Sorted | subtrees/gindex/gindex/gnindex.py:493-500 | sorting is a permutation of the dictionary's values |
| GNIndex.SortValues | subtrees/gindex/gindex/gnindex.py:493-500 | the loop pops the named entries in order and appends the remaining ones, as specified |
| GNIndex.RemoveUnambiguous | subtrees/gindex/gindex/gnindex.py:45 | removing an entry keeps a dictionary unambiguous |
| GNIndex.SortNamedFirst | subtrees/gindex/gindex/gnindex.py:493-500 | in an unambiguous dictionary the entries left for the end are those no name of the order designates |
| GNIndex.Shorts | subtrees/gindex/gindex/gnindex.py:320-321 | one order item per entry, the entry's short name, in order |
| GNIndex.AutoOrder | subtrees/gindex/gindex/gnindex.py:320-321 | the automatic order is `True` followed by the short names in order |
| GNIndex.PassShortsPrefix | subtrees/gindex/gindex/gnindex.py:497 | sorting by the short names of the leading entries takes them in dictionary order and leaves the others |
| GNIndex.SortedAuto | subtrees/gindex/gindex/gnindex.py:312-318 | sorting by the automatic order keeps the dictionary order |
| GNIndex.Pairs | subtrees/gindex/gindex/gnindex.py:344-345 | one entry per index, keyed by the index's name |
| GNIndex.PairsAppend | subtrees/gindex/gindex/gnindex.py:344-345 | the entries of joined index lists are the entries of each in turn |
| GNIndex.ValsPairs | subtrees/gindex/gindex/gnindex.py:344-345 | the values of the entries are the indices themselves |
| GNIndex.Build | subtrees/gindex/gindex/gnindex.py:312-318 | construction builds the dictionary from the indices, replaces an empty order by the automatic one, and sorts: the values are a permutation of the dictionary's |
| GNIndex.New | subtrees/gindex/gindex/gnindex.py:289-318 | construction succeeds exactly when the name mode is valid (ValueError otherwise), and then the order is never empty |
| GNIndex.BuildKeepsOrder | subtrees/gindex/gindex/gnindex.py:312-321 | indices with distinct names built with the automatic order keep their given order |
| GNIndex.CollectMembers | subtrees/gindex/gindex/gnindex.py:344-345 | from entries where equal names mean equal values, the built dictionary holds exactly those entries |
| GNIndex.KeyedConsistent | subtrees/gindex/gindex/gnindex.py:344-345 | entries with distinct names are consistent |
| GNIndex.BuildMembers | subtrees/gindex/gindex/gnindex.py:312-345 | when equal names mean equal indices, every given index is there after construction and nothing else is |
| GNIndex.CopyWith | subtrees/gindex/gindex/gnindex.py:559-584 | a copy with new values keeps the options, and the order unless that is empty |
| GNIndex.SubValues | subtrees/gindex/gindex/gnindex.py:441-448 | the indices kept are exactly those designated by a short or full name among the names |
| GNIndex.Sub | subtrees/gindex/gindex/gnindex.py:441-448 | the copy's values are a permutation of the dictionary built from the kept indices |
| GNIndex.TailUnambiguous | subtrees/gindex/gindex/gnindex.py:441-448 | the tail of an unambiguous list of indices is unambiguous and apart from its head |
| GNIndex.ConsUnambiguous | subtrees/gindex/gindex/gnindex.py:441-448 | an index apart from an unambiguous list can lead it |
| GNIndex.SubUnambiguous | subtrees/gindex/gindex/gnindex.py:441-448 | keeping some indices of an unambiguous list keeps it unambiguous |
| GNIndex.PassHead | subtrees/gindex/gindex/gnindex.py:497 | a name matching the first entry pops it first |
| GNIndex.PassSkip | subtrees/gindex/gindex/gnindex.py:497 | a name that is not in the dictionary is skipped |
| GNIndex.PassFiltered | subtrees/gindex/gindex/gnindex.py:441-448 | sorting the kept indices by the automatic order of all of them keeps their order and leaves nothing |
| GNIndex.FilteredKept | subtrees/gindex/gindex/gnindex.py:441-448 | the step of that argument for a kept first index |
| GNIndex.FilteredDropped | subtrees/gindex/gindex/gnindex.py:441-448 | the step of that argument for a dropped first index |
| GNIndex.SubKeepsOrder | subtrees/gindex/gindex/gnindex.py:441-448 | `sub` of an index built with the automatic order keeps exactly the designated indices, in their order |
| GNIndex.AppendNew | subtrees/gindex/gindex/gnindex.py:460 | the indices given first stay first; the result holds exactly the indices of either list, and no index twice when the first list had none twice |
| GNIndex.InArgsCons | subtrees/gindex/gindex/gnindex.py:454-460 | an index is in some argument exactly when it is in the first or in one of the others |
| GNIndex.UnionAll | subtrees/gindex/gindex/gnindex.py:452-461 | the index's own indices stay first; the result holds exactly the indices of the index or of some argument, without repeats when the index had none |
| GNIndex.Union | subtrees/gindex/gindex/gnindex.py:452-461 | the copy's values are a permutation of the dictionary built from the union's indices, with the index's order |
| GNIndex.UnionWith | subtrees/gindex/gindex/gnindex.py:452-461 | the loop over the arguments gives the union specified |
| GNIndex.UnionKeepsOrder | subtrees/gindex/gindex/gnindex.py:452-461 | with all names distinct, `union` of an index built with the automatic order keeps its own indices first and appends the new ones in the order they came |
| GNIndex.Plus | subtrees/gindex/gindex/gnindex.py:463-473 | `+` fails with AttributeError exactly when the orders differ; otherwise it is a copy with the set of both sides' indices |
| GNIndex.Minus | subtrees/gindex/gindex/gnindex.py:478-488 | `-` fails with AttributeError exactly when the orders differ; otherwise it is a copy with the set difference |
| GNIndex.PlusMeaning | subtrees/gindex/gindex/gnindex.py:463-473 | when equal names mean equal indices, `+` holds exactly the indices of either side |
| GNIndex.MinusMeaning | subtrees/gindex/gindex/gnindex.py:478-488 | when equal names mean equal indices, `-` holds exactly the left indices that are not on the right |
| GNIndex.RestAll | subtrees/gindex/gindex/gnindex.py:386-398 | removing names fails only with KeyError, for a name that is not there |
| GNIndex.RestFrom | subtrees/gindex/gindex/gnindex.py:393-398 | the loop over a group's elements fails only with KeyError |
| GNIndex.DelMeaning | subtrees/gindex/gindex/gnindex.py:41-48 | deleting a name from an unambiguous dictionary removes exactly the entry it designates and keeps the dictionary unambiguous |
| GNIndex.RestAllMeaning | subtrees/gindex/gindex/gnindex.py:386-398 | on an unambiguous dictionary, `_rest` removes exactly the entries the names designate |
| GNIndex.RestFromMeaning | subtrees/gindex/gindex/gnindex.py:393-398 | on an unambiguous dictionary, the loop removes exactly the entries its remaining elements designate |
| GNIndex.Rest | subtrees/gindex/gindex/gnindex.py:347-384 | nothing for an index without values or for an empty group; a single name succeeds exactly when it is in the dictionary; an argument that is neither a name nor a group raises TypeError; other failures are KeyError |
| GNIndex.RestMeaning | subtrees/gindex/gindex/gnindex.py:347-398 | with an unambiguous dictionary, `rest` of a group holds exactly the indices the names do not designate |
| GNIndex.SplitPicks | subtrees/gindex/gindex/gnindex.py:419-439 | succeeds exactly when every element is a name in the dictionary, giving the designated indices in order; a missing name raises ValueError and a nested group TypeError |
| GNIndex.Split | subtrees/gindex/gindex/gnindex.py:400-430 | names that are not a group raise TypeError; a failing pick fails the split; otherwise the first part is a copy with the picked indices, and the rest is absent when not asked for |
| GNIndex.SplitUnknownName | subtrees/gindex/gindex/gnindex.py:437-439 | splitting by a name that designates no index raises ValueError |
| GNIndex.SplitMeaning | subtrees/gindex/gindex/gnindex.py:400-439 | with an unambiguous dictionary keyed by the indices' names, the split keeps exactly the designated indices |
| GNIndex.InstPairs | subtrees/gindex/gindex/gnindex.py:109-110 | one entry per instance, keyed by its name |
| GNIndex.BuildInstance | subtrees/gindex/gindex/gnindex.py:86-113 | the dictionary is built from the instances, an empty order becomes the automatic one, and the sorted instances are a permutation of the dictionary's values |
| GNIndex.NewInstance | subtrees/gindex/gindex/gnindex.py:69-92 | construction succeeds exactly when the name mode is valid (ValueError otherwise); the dictionary maps each name to its instance, the order is the given one or, when empty, the automatic one, and the sorted instances are exactly the dictionary's instances |
| GNIndex.ValsInstPairs | subtrees/gindex/gindex/gnindex.py:109-110 | the values of the entries are the instances themselves |
| GNIndex.InstancesKeptOnce | subtrees/gindex/gindex/gnindex.py:86-113 | with the corrected sort, instances of distinct indices are each kept exactly once |
| GNIndex.Looked | subtrees/gindex/gindex/gnindex.py:99 | the looked-up instances are no more than the order's entries and all come from the dictionary |
| GNIndex.KeyValues | subtrees/gindex/gindex/gnindex.py:101-104 | one instance per key the dictionary holds, all from the dictionary |
| GNIndex.SortInstancesAsWritten | subtrees/gindex/gindex/gnindex.py:94-107 | as written, when the order misses an instance the looked-up instances are kept first and an instance for every key is appended again |
| GNIndex.LookupTwo | subtrees/gindex/gindex/gnindex.py:24-29 | in a dictionary of two instances with apart names each is found by its own name |
| GNIndex.KeyValuesTwo | subtrees/gindex/gindex/gnindex.py:101-104 | two keys give their two instances in order |
| GNIndex.LookedOne | subtrees/gindex/gindex/gnindex.py:99 | an order naming one instance looks up just that instance |
| GNIndex.SortInstancesAsWrittenDuplicates | subtrees/gindex/gindex/gnindex.py:94-107 | with two instances and an order naming only the first, the sort as written returns three instances, the first twice, in either iteration order of the key set |
| GNIndex.Extend | subtrees/gindex/gindex/gnindex.py:522-523 | extending every prefix by every element gives the product of their counts |
| GNIndex.ExtendAt | subtrees/gindex/gindex/gnindex.py:522-523 | position i·\|b\|+j holds the i-th prefix extended by the j-th element |
| GNIndex.ExtendMember | subtrees/gindex/gindex/gnindex.py:522-523 | every extended sequence is a prefix from the list followed by an element of the other |
| GNIndex.Lengths | subtrees/gindex/gindex/gnindex.py:506-508 | one count per list, its length |
| GNIndex.Product | subtrees/gindex/gindex/gnindex.py:522-523 | the product has as many combinations as the product of the lengths |
| GNIndex.ProductSound | subtrees/gindex/gindex/gnindex.py:522-523 | every combination of the product takes one element from each list |
| GNIndex.ProductComplete | subtrees/gindex/gindex/gnindex.py:522-523 | every choice of one element per list is in the product |
| GNIndex.ProductChoices | subtrees/gindex/gindex/gnindex.py:522-523 | the product holds exactly the choices of one element per list |
| GNIndex.ProductOrder | subtrees/gindex/gindex/gnindex.py:522-523 | the product is in lexicographic order: the combinations of the leading lists, each followed by every element of the last list |
| GNIndex.InstanceLists | subtrees/gindex/gindex/gnindex.py:506-508 | one list per index, its instances |
| GNIndex.Sizes | subtrees/gindex/gindex/gnindex.py:506-508 | one size per index |
| GNIndex.Iter | subtrees/gindex/gindex/gnindex.py:522-531 | one n-dimensional instance per combination, as many as the product of the sizes, each with the index's options and (when non-empty) order |
| GNIndex.SameNamesKept | subtrees/gindex/gindex/gnindex.py:86-113 | instances named like the indices, in index order, keep that order under the indices' automatic order |
| GNIndex.ChoiceNames | subtrees/gindex/gindex/gnindex.py:506-523 | a choice of one instance per index carries the indices' names in order |
| GNIndex.IterKeepsCombination | subtrees/gindex/gindex/gnindex.py:522-531 | for an index built with the automatic order from indices with distinct names, each n-dimensional instance holds its combination in index order |
| GNIndex.Format | subtrees/gindex/gindex/gnindex.py:196-207 | the loop joins, per order entry, the formatted instance it names or the string where the order holds `True` |
| GNIndex.PiecesShorts | subtrees/gindex/gindex/gnindex.py:196-207 | formatting by the short names of the instances joins them formatted, in order |
| GNIndex.FormatAutoOrder | subtrees/gindex/gindex/gnindex.py:196-207 | with the automatic order, `format` puts the string first and then every instance formatted, in order |
| GNIndex.PieceWith | subtrees/gindex/gindex/gnindex.py:158-169 | one piece fails exactly when a named instance is formatted with the name and an invalid mode |
| GNIndex.FormatWithPieces | subtrees/gindex/gindex/gnindex.py:157-170 | the join fails, with ValueError, exactly when the name is asked for with an invalid mode and the order names some instance |
| GNIndex.PiecesStep | subtrees/gindex/gindex/gnindex.py:157-170 | the join is the first piece followed by the join of the rest, a failure of the first piece stopping it |
| GNIndex.PrefixedEmpty | subtrees/gindex/gindex/gnindex.py:170 | putting nothing in front changes nothing |
| GNIndex.PrefixedTwice | subtrees/gindex/gindex/gnindex.py:170 | putting two texts in front is putting their concatenation |
| GNIndex.FormatWith | subtrees/gindex/gindex/gnindex.py:136-170 | an absent or empty order, separator or name separator is the instance's own; the loop gives the join specified |
| GNIndex.PiecesAgree | subtrees/gindex/gindex/gnindex.py:136-207 | with the instances' own options and no integer but `True` in the order, the custom join equals the default one |
| GNIndex.FormatWithOwnOptions | subtrees/gindex/gindex/gnindex.py:136-207 | with its own options, `formatwith` is `format` as long as the only integer in the order is `True` |

## Left out

- Numerical kernels: `_fcn` drivers, numpy arithmetic and the integrator's multiplication by weights are not modelled. Arrays are shapes with flat contents, and the integrator's data are integers rather than floats.
- Logging, printing, warnings (among them the `namesep` warning of the index formatter) and profiling timers: they are I/O.
- `EdgeContainer` is modelled on values (ordered dictionaries as key lists plus maps) and not as a mutable object. Aliasing between containers is therefore not captured.
- Node identity: nodes, inputs and outputs are numbers in an arena. `Graph.add_node` creates the node in the source, while the model registers an existing node number.
- Node scope: the node base reads the strategy's `_idx_scope`, while the strategy module of this revision keeps `_scope`. The model uses one scope counter for both.
- `Node.close`: the `together` argument is left out, because `Graph.close` never passes it.
- Node operators: the MetaNode branch of `>>` and `>>` onto a `NestedMapping` are not modelled.
- `Node.data`: wrapping an exception of the function into CalculationError is not modelled.
- OutputData.FillAt: `_data[idx] = x` is taken on the flattened array, with the index bounded by the number of elements. This matches numpy only for 1-d outputs; on an output with two or more axes numpy writes a whole row and bounds the index by the first axis. Every caller of `seti` in the repository writes a 1-d parameter array.
- OutputData.SetValueAt: for the same reason, the element `seti` writes is one of the flattened array, which matches numpy only for 1-d outputs; the value is not converted to the output's dtype.
- OutputData.Differs: the `check_taint` comparison is modelled only for data that broadcast into the output's shape. Data of a larger shape that broadcast with the output's shape but not into it are refused with ValueError; the source compares them first and returns False when every value agrees.
- OutputData.WriteAll: numpy's `_data[:] = data` converts the written values to the output's dtype (1.5 written into an integer array holds 1); the model stores the broadcast values unchanged, since values carry no dtype of their own here.
- OutputData.SetValues: inherits that narrowing of OutputData.Differs and the missing dtype conversion of OutputData.WriteAll. The data are an array (a number is an array with no axes). One path differs for a plain Python number: `set(x, check_taint=True)` on an output with no array yet computes `(None != x)`, a bool, whose `.any()` raises AttributeError; the model finds the values differ and then refuses the write with TypeError.
- Engine.Dag.Set: runs OutputData.Differs and OutputData.WriteAll, so it has the same three gaps: data that broadcast with the output's shape but not into it give ValueError, the written values are not converted to the output's dtype, and a plain number checked against a missing array gives TypeError where the source raises AttributeError.
- Engine.Dag.Seti: runs OutputData.SetValueAt, so the element it writes is one of the flattened array; this matches numpy only for 1-d outputs, and the value is not converted to the output's dtype.
- Hooks and callbacks other than the post-allocation callbacks are not modelled.
- SegmentIndex: the tolerance chosen from the dtype (`_type_function`) is a parameter. `searchsorted` is modelled by `Past` on sorted edges.
- SegmentIndex.IsSorted: requires non-empty edges, because the source indexes element 0 of an empty array and fails there.
- SegmentIndex.Compute: requires non-empty edges for the same reason; the node's type checks are not modelled.
- Parameter: labels, the View node, `to_dict` and `connected` are left out. Values are reals.
- Labels: the derived getters, `setdefault` on attributes that are not text, the `plotoptions` setter and `format`/`inherit` are left out. A string value met by `mapping_append_lists` where a list is expected would be iterated character by character in Python; the model raises TypeError there.
- LoadParameters: floating-point rounding, raw sigma keys, the walk over nested mappings, labels (`get_label`) and correlation matrices other than the size check are left out.
- GIndex: braces and `str.format` templates are not interpreted. `formatwith`'s `place`, `__getitem__`, `copy`/`copywith` of the one-dimensional index and `rest2end=False` are left out.
- GNIndex: the iteration order of Python sets is a parameter of `+`, `-` and of the instance sort. `union`'s `**kwargs` are dropped. `copy()` is left out, because it refers to an undefined `kwargs` (NameError). The second revision of the module under `gindex/` is not part of this model.
- GNIndex.NameDict: sorting is modelled on values; the class models the dictionary's own three operations only.
- Profiling: nodes are numbers, children are adjacency lists, and sets stand in for Python sets.
- Concurrency and threads: the engine is single-threaded.
- Wiring.Bind: models the corrected connection (Wiring.Connect): a refused connection changes nothing, whereas output.py:419-422 first lists the input among the output's children and records it as the allocating input, and only then lets `set_parent_output` raise (see Findings).
- NodeBuild.ConnectToNode: models the corrected connection (Wiring.Connect): a refused connection changes nothing, whereas output.py:419-422 first lists the input among the output's children and records it as the allocating input, and only then lets `set_parent_output` raise (see Findings).
- NodeBuild.ConnectToNodeKeepsLinked: models the corrected connection (Wiring.Connect): a refused connection changes nothing, whereas output.py:419-422 first lists the input among the output's children and records it as the allocating input, and only then lets `set_parent_output` raise (see Findings).
- NodeBase.Shift: models the corrected connection (Wiring.Connect): a refused connection changes nothing, whereas output.py:419-422 first lists the input among the output's children and records it as the allocating input, and only then lets `set_parent_output` raise (see Findings).
- NodeBase.ShiftAll: models the corrected connection (Wiring.Connect): a refused connection changes nothing, whereas output.py:419-422 first lists the input among the output's children and records it as the allocating input, and only then lets `set_parent_output` raise (see Findings).
- NodeBase.ShiftKeepsLinked: models the corrected connection (Wiring.Connect): a refused connection changes nothing, whereas output.py:419-422 first lists the input among the output's children and records it as the allocating input, and only then lets `set_parent_output` raise (see Findings).
- NodeBase.ShiftAllKeepsLinked: models the corrected connection (Wiring.Connect): a refused connection changes nothing, whereas output.py:419-422 first lists the input among the output's children and records it as the allocating input, and only then lets `set_parent_output` raise (see Findings).
- NodeBase.NodeShift: models the corrected connection (Wiring.Connect): a refused connection changes nothing, whereas output.py:419-422 first lists the input among the output's children and records it as the allocating input, and only then lets `set_parent_output` raise (see Findings).
- NodeBase.RShiftInto: models the corrected connection (Wiring.Connect): a refused connection changes nothing, whereas output.py:419-422 first lists the input among the output's children and records it as the allocating input, and only then lets `set_parent_output` raise (see Findings).
- NodeBase.BindAll: models the corrected connection (Wiring.Connect): a refused connection changes nothing, whereas output.py:419-422 first lists the input among the output's children and records it as the allocating input, and only then lets `set_parent_output` raise (see Findings).
- NodeBase.BindAllStep: models the corrected connection (Wiring.Connect): a refused connection changes nothing, whereas output.py:419-422 first lists the input among the output's children and records it as the allocating input, and only then lets `set_parent_output` raise (see Findings).
- NodeBase.BindAllKeepsLinked: models the corrected connection (Wiring.Connect): a refused connection changes nothing, whereas output.py:419-422 first lists the input among the output's children and records it as the allocating input, and only then lets `set_parent_output` raise (see Findings).
- NodeBase.LShift: models the corrected connection (Wiring.Connect): a refused connection changes nothing, whereas output.py:419-422 first lists the input among the output's children and records it as the allocating input, and only then lets `set_parent_output` raise (see Findings).
- Engine.Dag.ConnectInput: models the corrected connection (Wiring.Connect): a refused connection changes nothing, whereas output.py:419-422 first lists the input among the output's children and records it as the allocating input, and only then lets `set_parent_output` raise (see Findings).
- Engine.Dag.ConnectToNode: models the corrected connection (Wiring.Connect): a refused connection changes nothing, whereas output.py:419-422 first lists the input among the output's children and records it as the allocating input, and only then lets `set_parent_output` raise (see Findings).
- Engine.Dag.Shift: models the corrected connection (Wiring.Connect): a refused connection changes nothing, whereas output.py:419-422 first lists the input among the output's children and records it as the allocating input, and only then lets `set_parent_output` raise (see Findings).
- Engine.Dag.NodeShift: models the corrected connection (Wiring.Connect): a refused connection changes nothing, whereas output.py:419-422 first lists the input among the output's children and records it as the allocating input, and only then lets `set_parent_output` raise (see Findings).
- Engine.Dag.RShiftInto: models the corrected connection (Wiring.Connect): a refused connection changes nothing, whereas output.py:419-422 first lists the input among the output's children and records it as the allocating input, and only then lets `set_parent_output` raise (see Findings).
- Engine.Dag.BindAll: models the corrected connection (Wiring.Connect): a refused connection changes nothing, whereas output.py:419-422 first lists the input among the output's children and records it as the allocating input, and only then lets `set_parent_output` raise (see Findings).
- Engine.Dag.LShift: models the corrected connection (Wiring.Connect): a refused connection changes nothing, whereas output.py:419-422 first lists the input among the output's children and records it as the allocating input, and only then lets `set_parent_output` raise (see Findings).
- AllocWalk.AllocOuts: allocates through the corrected Ports.OutAlloc and AllocWalk.PostAlloc: an allocatable output whose allocating input still needs a buffer is allocated, where output.py:316 raises AllocationError, and each parent's callback is registered once, where node.py:601-608 registers it once per input (see Findings).
- AllocWalk.LocalAlloc: allocates through the corrected Ports.OutAlloc and AllocWalk.PostAlloc: an allocatable output whose allocating input still needs a buffer is allocated, where output.py:316 raises AllocationError, and each parent's callback is registered once, where node.py:601-608 registers it once per input (see Findings).
- AllocWalk.AllocNode: allocates through the corrected Ports.OutAlloc and AllocWalk.PostAlloc: an allocatable output whose allocating input still needs a buffer is allocated, where output.py:316 raises AllocationError, and each parent's callback is registered once, where node.py:601-608 registers it once per input (see Findings).
- AllocWalk.AllocParents: allocates through the corrected Ports.OutAlloc and AllocWalk.PostAlloc: an allocatable output whose allocating input still needs a buffer is allocated, where output.py:316 raises AllocationError, and each parent's callback is registered once, where node.py:601-608 registers it once per input (see Findings).
- CloseWalk.CloseNode: allocates through the corrected Ports.OutAlloc and AllocWalk.PostAlloc: an allocatable output whose allocating input still needs a buffer is allocated, where output.py:316 raises AllocationError, and each parent's callback is registered once, where node.py:601-608 registers it once per input (see Findings).
- Graphs.AllocAll: allocates through the corrected Ports.OutAlloc and AllocWalk.PostAlloc: an allocatable output whose allocating input still needs a buffer is allocated, where output.py:316 raises AllocationError, and each parent's callback is registered once, where node.py:601-608 registers it once per input (see Findings).
- Graphs.Graph.AllocateAll: allocates through the corrected Ports.OutAlloc and AllocWalk.PostAlloc: an allocatable output whose allocating input still needs a buffer is allocated, where output.py:316 raises AllocationError, and each parent's callback is registered once, where node.py:601-608 registers it once per input (see Findings).
- Engine.Dag.AllocateOutputs: allocates through the corrected Ports.OutAlloc and AllocWalk.PostAlloc: an allocatable output whose allocating input still needs a buffer is allocated, where output.py:316 raises AllocationError, and each parent's callback is registered once, where node.py:601-608 registers it once per input (see Findings).
- Engine.Dag.PostAllocate: allocates through the corrected Ports.OutAlloc and AllocWalk.PostAlloc: an allocatable output whose allocating input still needs a buffer is allocated, where output.py:316 raises AllocationError, and each parent's callback is registered once, where node.py:601-608 registers it once per input (see Findings).
- Engine.Dag.Allocate: allocates through the corrected Ports.OutAlloc and AllocWalk.PostAlloc: an allocatable output whose allocating input still needs a buffer is allocated, where output.py:316 raises AllocationError, and each parent's callback is registered once, where node.py:601-608 registers it once per input (see Findings).
- Engine.Dag.LocalAllocate: allocates through the corrected Ports.OutAlloc and AllocWalk.PostAlloc: an allocatable output whose allocating input still needs a buffer is allocated, where output.py:316 raises AllocationError, and each parent's callback is registered once, where node.py:601-608 registers it once per input (see Findings).
- Engine.Dag.Close: allocates through the corrected Ports.OutAlloc and AllocWalk.PostAlloc: an allocatable output whose allocating input still needs a buffer is allocated, where output.py:316 raises AllocationError, and each parent's callback is registered once, where node.py:601-608 registers it once per input (see Findings).
- Graphs.ClosePasses: runs the corrected close loop (Graphs.CloseAll): a non-strict close that swallows a node's ClosingError reports the graph open, where the for-else of graph.py:125-135 reports it closed (see Findings); its allocation pass is also the corrected one.
- Graphs.GraphClose: runs the corrected close loop (Graphs.CloseAll): a non-strict close that swallows a node's ClosingError reports the graph open, where the for-else of graph.py:125-135 reports it closed (see Findings); its allocation pass is also the corrected one.
- Graphs.Graph.CloseEach: runs the corrected close loop (Graphs.CloseAll): a non-strict close that swallows a node's ClosingError reports the graph open, where the for-else of graph.py:125-135 reports it closed (see Findings); its allocation pass is also the corrected one.
- Graphs.Graph.RunPasses: runs the corrected close loop (Graphs.CloseAll): a non-strict close that swallows a node's ClosingError reports the graph open, where the for-else of graph.py:125-135 reports it closed (see Findings); its allocation pass is also the corrected one.
- Graphs.Graph.Finish: runs the corrected close loop (Graphs.CloseAll): a non-strict close that swallows a node's ClosingError reports the graph open, where the for-else of graph.py:125-135 reports it closed (see Findings); its allocation pass is also the corrected one.
- Graphs.Graph.Close: runs the corrected close loop (Graphs.CloseAll): a non-strict close that swallows a node's ClosingError reports the graph open, where the for-else of graph.py:125-135 reports it closed (see Findings); its allocation pass is also the corrected one.
- NodeBuild.RunStrategy: plans through the corrected InputStrategy.MakePlan: the every-N handler adds the input without an output where inputhandler.py:255-266 raises UnboundLocalError (see Findings).
- Engine.Dag.RunStrategy: plans through the corrected InputStrategy.MakePlan: the every-N handler adds the input without an output where inputhandler.py:255-266 raises UnboundLocalError (see Findings).
- GNIndex.NewInstance: builds each instance with the corrected sort (GNIndex.BuildInstance): every instance is kept once, where gnindex.py:94-107 appends the named instances again whenever the order does not name every index, as after a `union` (see Findings).
- GNIndex.Iter: builds each instance with the corrected sort (GNIndex.BuildInstance): every instance is kept once, where gnindex.py:94-107 appends the named instances again whenever the order does not name every index, as after a `union` (see Findings).
- TaintWalk.Touched: the node function is a parameter that reads no input, so evaluating a node touches none of its parents; the source's `_fcn` reads input data, which touches the parents first. The statement holds for the model's evaluation only.
- Engine.Dag.TouchNow: the node function is a parameter that reads no input, so evaluating a node touches none of its parents; the source's `_fcn` reads input data, which touches the parents first. The statement holds for the model's evaluation only.
- TaintWalk.TaintNodeGrows: the node function is a parameter that reads no input, so evaluating a node touches none of its parents; the source's `_fcn` reads input data, which touches the parents first. The statement holds for the model's evaluation only; that a taint changes nothing ranked at or below its start relies on it.
- Graphs.GraphOpenOpens: the node function is a parameter that reads no input, so evaluating a node touches none of its parents; the source's `_fcn` reads input data, which touches the parents first. The statement holds for the model's evaluation only; that no node is closed again during the walk, so that the ClosedGraphError of `open` is never raised, relies on it.
- Edges.Add: the container's element type (`_dtype`, fixed by the first port added, with RuntimeError for a port of another type) is not modelled; a node's input container holds only inputs and its output container only outputs.
- Edges.PySlice: slice bounds and steps are integers or None; objects converted through `__index__`, and the TypeError for bounds of other types, are not modelled.
- Ports.CopyInto: the conversion of the old values to the destination's dtype (truncation to an integer dtype, or numpy's error for a complex source) is not modelled; values are reals and are copied as they are.
- Integrator.Integrate1d: the running sums of the orders are unbounded integers; numba's 64-bit wrap-around for sums beyond 2^63 is not modelled. The result must be at least as long as the orders: the integrator never compares the length of the orders' edges with the orders, so a shorter result is an unchecked out-of-bounds write in numba, which the model does not capture. In practice the Array node's edges check keeps the edges one longer than the orders.
- Integrator.Integrate2d: as for Integrator.Integrate1d, the 64-bit wrap-around of the running sums is not modelled, and a result with fewer rows or columns than there are orders (an unchecked out-of-bounds write) is excluded.
- Integrator.Integrate2to1d: as for Integrator.Integrate1d, the 64-bit wrap-around of the running sums is not modelled, and a result shorter than the orders (an unchecked out-of-bounds write) is excluded.
- Edges.Iter: the generator is collected into one list or one error. The entries a consumer would receive before a failing sub-key, and the deferral of the `exclude_pos` check until the first item is requested, are not modelled.
- Formatters.Format: a template is filled only at its `{}` placeholders; `str.format` fields with an index, a name or a format specification are not interpreted.
- Profiling.RevealSourceSink: inputs are taken to be connected. The AttributeError that `parent_node` raises for an input without a parent (dagflow/tools/profiling/utils.py:22) is not modelled.

## Findings

| source | as written | input that shows it | evidently intended | confidence | as-written member | corrected member |
|---|---|---|---|---|---|---|
| src/dagflow/core/output.py:419-420 | the output appends the input to its child inputs before the input is told its parent, and that call can raise ReconnectionError | an output connected to an input that already has a parent: the call fails, but the output still lists the input as its child | refuse the connection before changing anything | not executed | Wiring.ConnectAsWritten, Wiring.ConnectAsWrittenDangling | Wiring.Connect, Wiring.ConnectKeepsLinked |
| src/dagflow/bundles/load_parameters.py:28-45 | the configuration check admits a single number for the list format ["value"] and a one-element tuple for the word "value"; the processors then fail or keep the tuple | format ["value"] with entry 1.0 raises TypeError; format "value" with entry (1.0,) makes the tuple the value | entries of one-element formats load as one number | not executed | LoadParameters.LoadAsWritten, LoadParameters.OneElementFormatsAsWritten | LoadParameters.Load, LoadParameters.CheckedEntriesLoad |
| dagflow/inputhandler.py:255-266 | in the "one output per N inputs" handler, the output variable is bound only when a new block starts | N = 2, a new scope, one positional input already present: the handler reads an unbound `out` (UnboundLocalError) | add the input without an output | not executed | InputStrategy.MakePlanAsWritten, InputStrategy.AddEachNUnboundOutput | InputStrategy.MakePlan, InputStrategy.EveryNPlanSucceeds |
| subtrees/gindex/gindex/gnindex.py:94-107 | the instance sort subtracts the order's strings from a set of name objects, which removes nothing, so every instance is appended again | two instances, with an order naming only the first: the first instance comes out twice and there are three instances | each instance exactly once, named ones first | not executed | GNIndex.SortInstancesAsWritten, GNIndex.SortInstancesAsWrittenDuplicates | GNIndex.BuildInstance, GNIndex.InstancesKeptOnce |
| src/dagflow/core/output.py:316 | the output's allocation passes a keyword argument to the input's allocation, which forwards it to numpy `zeros` and fails | an empty allocatable output whose allocating input still needs a buffer of shape [3]: AllocationError | the input allocates its buffer and the output adopts it | not executed | Ports.OutAllocAsWritten, Ports.AllocatingInputExample | Ports.OutAlloc, Ports.OutAllocAgain |
| src/dagflow/core/node.py:601-608 | the duplicate test compares a parent node with a list of bound `touch` methods, so it never matches | a node fed twice by the same parent: the parent's callback is registered twice | each parent's callback once | not executed | AllocWalk.PostAllocAsWritten, AllocWalk.PostAllocDuplicates | AllocWalk.PostAlloc, AllocWalk.PostAllocDistinct |
| dagflow/core/graph.py:125-135 | a non-strict close swallows a ClosingError of a node and still reports the graph closed | two nodes, the second invalid, closed non-strictly: the result is "closed" while node 1 is open | report the graph open when a node did not close | not executed | Graphs.CloseAllAsWritten, Graphs.CloseAllAsWrittenReportsOpenNode | Graphs.CloseAll, Graphs.GraphClose |
