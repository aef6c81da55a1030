# The native backend of Napitia, modelled and proved in Dafny

This project models the native backend of the Napitia compiler: the validator that decides which programs it
compiles, the code generator that compiles them, and the interpreter semantics both are measured against. It proves
that they fit together. Every verified program the validator accepts is compiled without an internal error, never
reaches a state without meaning, and behaves as machine code exactly as it behaves in the interpreter: it returns the
same value, fails with the same operator, or runs on.

## How the project is laid out

- `Nir.dfy` is the Napitia IR the backend consumes: functions made of basic blocks of instructions.
- `NirSemantics.dfy` and `InterpreterRules.dfy` are the interpreter, as a step function and as inference rules.
  It is a small-step machine over call frames. `Stuck` is every dynamic check it
  answers with an invalid-operation error; `Failed` is the fatal abort that carries the overflowing operator.
- `Graphs.dfy`, `Ordered.dfy`, `BreadthFirst.dfy`, `Dataflow.dfy`, `Postorder.dfy` and `Components.dfy` are the graph
  algorithms: breadth-first search, the forward must-analysis, reverse postorder, and Tarjan's components, each as the
  worklist or stack loop it is, each proved against a statement about paths or a recursive reference.
- `Capability.dfy` holds the checks and the subset they define, `Refusals.dfy` what a program outside it is refused
  for, and `Validation.dfy` is the validator that decides both. What they check is stated once more without them:
  `Gates.dfy` over the fields of what is checked, code by code, `Availability.dfy` over the instructions along every
  way of getting to a position, `Calls.dfy` over the places of calls, and `Exactness.dfy` over what the interpreter
  can do with the operands.
- `TypeSafety.dfy` proves that accepted programs do not go wrong. `Necessity.dfy` shows that what NIR verification
  contributes cannot be left out. `StorageOrder.dfy` proves that the order a module is stored in does not matter.
- `Numeric.dfy` is the executed integer domain and the exactness of the overflow tests.
- `TargetIr.dfy` is a small target machine, and `TargetRules.dfy` says exactly when it is stuck: words, registers, variables, blocks and calls. Reading anything undefined,
  mixing word types, or a call whose arguments do not fit its signature is `TStuck`.
- `Lowering.dfy`, `Bodies.dfy` and `CodeGeneration.dfy` are code generation: what each instruction becomes, what a
  whole body becomes, and the builder that is filled step by step. `LoweringRules.dfy` says exactly what has no code,
  and `Emission.dfy` where a block stands in the order of emission.
- `Fragments.dfy`, `Simulation.dfy`, `StarSimulation.dfy` and `Preservation.dfy` are the correctness of the code:
  first one fragment, then one step, then whole runs.

## What is taken as given

Two facts belong to NIR verification, which runs before the backend and is not part of this model. They are the two
halves of `TypeSafety.Verified` and stand in front of the results about runs:

- every integer constant fits the signed 64-bit domain (`compiler/src/nir/verify.rs:3231`);
- the `alloc` of a slot dominates every store to it and every load from it (`compiler/src/nir/verify.rs:2226-2345`).

The native checks do not repeat either of them. Lowering is proved without them: `CodeGeneration.LowerProgram` succeeds
on an accepted program exactly when, in every planned function, the constants fit and the `alloc`s come first in the
order of emission, which the two facts imply. `Necessity.AllocDominanceIsNeeded` is a program that the backend accepts
although its `alloc` comes late: its run loads the placeholder, and it cannot be lowered.

The interpreter also stops at a fixed number of active frames (512, `compiler/src/limits.rs:65`). The number is the
parameter `limit` and results about runs hold whatever it is: `TypeSafety.AnyLimit` says that it changes a run exactly
where the run would have more functions active than that, which never happens when the plan has no more functions.
The source always has a positive limit; with none, no program starts.

Where the code and its documentation differ, the model follows the code: `compiler/src/native/capability.rs:157-161`
lists reachable functions in ascending order, but a function whose blocks cannot be keyed is reported by the walk, in
the walk's order and before the others (lines 240-256).

## Model

| member | source | states |
|---|---|---|
| Preservation.LoweringPreservesMeaning | compiler/src/native/lower.rs:498-1031 | For every accepted and verified program and whatever code lowering gave it: the interpreter returns a value exactly when the executable returns its word, it fails with an operator exactly when the executable fails with that operator, and the executable is never stuck; a frame limit makes a difference exactly when the run exceeds it |
| Preservation.ExitStatusIsTheResult | compiler/src/native/lower.rs:1033-1093 | When a run finishes within the frame limit, the executable ends too, with the run's result modulo 256, with 0 for `unit`, or with 70 after a runtime failure, and with nothing else |
| Preservation.ObservedOnlyAtTheEnd | compiler/src/native/lower.rs:1033-1093 | There is a status only once the executable has ended |
| CodeGeneration.LowerProgram | compiler/src/native/lower.rs:99-186 | Lowering a validated plan succeeds if and only if in every planned function the constants fit and each `alloc` is emitted before what uses its slot, as it always does for a verified program; it yields for each planned function its signature, its argument registers, its prologue and the code of every reachable block, and otherwise stops at such a slot or such a constant |
| CodeGeneration.LowerBody | compiler/src/native/lower.rs:498-556 | The same for one body: a prologue that jumps to the entry block, then every planned block in reverse postorder, none disturbing the labels of another |
| CodeGeneration.BodyLowerer.LowerBlocks | compiler/src/native/lower.rs:541-552 | Filling the blocks succeeds if and only if each uses only what was lowered before it and no constant is oversized; it then leaves exactly the code of the order, and otherwise names the operand or the constant |
| CodeGeneration.BodyLowerer.BindParameters | compiler/src/native/lower.rs:603-627 | Each parameter becomes what its type says, and the argument registers are those of the parameters that are not `unit`, in order |
| CodeGeneration.BodyLowerer.CheckedBinary | compiler/src/native/lower.rs:808-859 | A checked operation appends its arithmetic and its test, and ends the block in a branch on the flag; it reports the operand that is no integer, and refuses negation, which is no binary operation |
| CodeGeneration.BodyLowerer.Check | compiler/src/native/lower.rs:871-886 | A guard ends the open block, fills the failure block with the handler call and a trap, and opens the continuation |
| Bodies.OrderFitsExactly | compiler/src/native/lower.rs:419-478 | In reverse postorder, an accepted function can be lowered if and only if its constants fit and each `alloc` comes before what uses its slot: every other operand always does |
| Bodies.AvailableFromDominator | compiler/src/native/capability.rs:633-687 | A value available on every path comes from one block, which dominates the use |
| Bodies.ValueLowers | compiler/src/native/lower.rs:688-797 | A value that passed its checks has code and becomes what its declared type says, provided its constant fits and its callee is compiled |
| Bodies.ConstantLowersExactlyWhenItFits | compiler/src/native/lower.rs:702-713 | The native checks accept an integer constant of any size; it has code if and only if it fits the domain |
| Bodies.EmitFills | compiler/src/native/lower.rs:871-886 | Filling a block in the presence of guards gives each label the code from its position on, and touches no label it did not create |
| LoweringRules.ValueHasCodeUnless | compiler/src/native/lower.rs:688-797 | A value has no code exactly when an operand is not lowered yet or was lowered to the wrong thing, its constant is outside the domain, its callee is absent or its kind is unsupported; the error names the first such operand |
| LoweringRules.StoreHasCodeUnless | compiler/src/native/lower.rs:644-686 | A store has no code exactly when an operand is not lowered yet, the target is no slot, or the slot cannot hold the value |
| LoweringRules.ExitHasCodeUnless | compiler/src/native/lower.rs:989-1031 | A terminator has no code exactly when its operand is not lowered yet or of the wrong kind, a target block was never created, or it is unsupported |
| LoweringRules.SignatureUnless | compiler/src/native/lower.rs:406-417 | A function has a signature exactly when its parameters and its result are of native types |
| Fragments.CheckedRuns | compiler/src/native/lower.rs:742-751 | The code of a checked operator leaves the exact result with its flag clear, or raises the flag precisely when the exact result is outside the domain |
| Fragments.ComparesAnswer | compiler/src/native/lower.rs:902-939 | Integers compare signed and booleans unsigned over 0 and 1, with the interpreter's answers |
| TargetRules.ComparesAsNamed | compiler/src/native/lower.rs:902-939 | Each comparison the generated code makes is that of the two words read as its name says, and equality does not depend on the reading |
| TargetRules.WordsAreRead | compiler/src/native/lower.rs:902-939 | A word read as signed or as unsigned is the integer of that range with the same bits |
| Fragments.NotRuns | compiler/src/native/lower.rs:752-758 | Inverting a boolean keeps its byte 0 or 1, and inverting an integer flips its word |
| Simulation.ValueSimulated | compiler/src/native/lower.rs:688-797 | Executing the code of any non-call value reaches the code after it with the value in its register, or fails with the operator the interpreter fails with |
| Simulation.PassingArrives | compiler/src/native/lower.rs:941-987 | With `unit` erased on both sides, arguments, parameter types and argument registers still line up position by position |
| Preservation.RunningStepRelated | compiler/src/native/lower.rs:498-1031 | Every interpreter step from related states is matched by target steps to related states, silently only while its block gets shorter |
| Preservation.EndsAreReached | compiler/src/native/lower.rs:498-1031 | Backwards: however a run of the executable ends, some run of the interpreter ends the same way |
| Preservation.EndsAreKept | compiler/src/native/lower.rs:498-1031 | Forwards: however far the interpreter runs, the executable gets to the corresponding state |
| Preservation.AnswerType | compiler/src/native/lower.rs:406-417 | A function is declared to answer with exactly the type of the word its datum becomes, and with nothing where it becomes none |
| Preservation.NothingMalformed | compiler/src/native/lower.rs:498-1031 | Nothing the executable is ever about to do is malformed: no register or variable is read before it is written, no word is used at another type, and every call and return fits its declared signature |
| TypeSafety.NeverStuck | compiler/src/native/capability.rs:616-690 | No run of an accepted program meets an undefined operand, a wrong scalar, a missing block, an unknown callee or an arity mismatch; it is stopped if and only if it exceeds the frame limit, and its result has the declared scalar |
| TypeSafety.AnyLimit | compiler/src/interpreter/mod.rs:3327-3333 | Under any frame limit the run is the unlimited one, cut off exactly where it would have more frames active; a limit of as many frames as the plan has functions is never met |
| TypeSafety.RunsInsideThePlan | compiler/src/native/capability.rs:222-329 | Execution never leaves the plan's functions and blocks, no function is active twice, and the stack is no deeper than the plan has functions |
| TypeSafety.NoPlaceholderLoaded | compiler/src/native/capability.rs:1397-1465 | A load always reads a slot stored since its last `alloc`, even where the `alloc` runs again on every turn of a loop |
| TypeSafety.AllocNotStored | compiler/src/native/capability.rs:1628-1641 | Where a slot is allocated the analysis holds nothing stored in it, although it never forgets a store |
| TypeSafety.StepKeeps | compiler/src/interpreter/mod.rs:3596-4190 | Every interpreter step from a state in order leads to a state in order |
| InterpreterRules.AdvancesByRules | compiler/src/interpreter/mod.rs:3382-4190 | The interpreter takes exactly the steps of the rules for computing, overflowing, allocating, storing, calling, jumping and returning; where no rule applies it is stuck |
| InterpreterRules.IntegersEvaluate | compiler/src/interpreter/mod.rs:4055-4190 | Two integers go through an operation if and only if both are in the domain; division, remainder and shifts are given no meaning here |
| TypeSafety.DepthBounded | compiler/src/native/capability.rs:1472-1527 | Rejecting recursion bounds runs: activations are of distinct functions |
| Necessity.AllocDominanceIsNeeded | compiler/src/native/capability.rs:841-849 | A program every native check accepts, whose `alloc` follows its store: its run loads the placeholder, and its plan cannot be lowered |
| StorageOrder.StorageOrderIsIrrelevant | compiler/src/native/capability.rs:105-113 | Permuting a module's functions and the blocks of each changes neither acceptance, nor the list of refusals, nor the plan, nor the emission order |
| StorageOrder.PlanIsUnique | compiler/src/native/capability.rs:108-113 | An accepted program has exactly one plan |
| Validation.Validate | compiler/src/native/capability.rs:162-329 | Ok exactly for native programs, stated over their fields and paths, with their plan; otherwise exactly the list `AreRefusals` gives: the foreign target, or the repeated ids, or imports followed by the entry that is missing or doubled or by unkeyed functions in the order of the walk, refused functions ascending with the code of their first reason, and cycles |
| Availability.SubsetIsNative | compiler/src/native/capability.rs:162-329 | A program is in the subset if and only if it is built for the one target without imports, one function is named `main`, every function that reaches has a native signature and body and its own origin, and nothing there recurses |
| Refusals.RefusalsUnique | compiler/src/native/capability.rs:157-162 | A module has one list of refusals: neither a code nor the order is left open |
| Refusals.AcceptedHasNone | compiler/src/native/capability.rs:302-304 | The list is empty if and only if the module is in the subset for some entry |
| Refusals.OneCodeEach | compiler/src/native/capability.rs:484-496 | A refused function has one code, that of its origin, else of its signature, else of its body, which is never that of a cycle; an accepted one has none |
| Validation.Validator.WalkCalls | compiler/src/native/capability.rs:237-274 | The walk reaches exactly the functions the entry reaches, and reports each whose blocks cannot be keyed once, in level order |
| BreadthFirst.SearchIsLevelOrder | compiler/src/native/capability.rs:237-274 | The queue yields the recursive level order: the callees of each level, each at its first occurrence, make up the next |
| BreadthFirst.LevelOrderIsReach | compiler/src/native/capability.rs:237-274 | The level order lists exactly the nodes the root reaches, each once |
| Validation.Validator.ValidateFunctions | compiler/src/native/capability.rs:276-302 | Each keyed reachable function is reported once if and only if it is refused, in ascending order, with the code of its first reason |
| Validation.Validator.ReportCycles | compiler/src/native/capability.rs:1472-1527 | One refusal per cycle of the reachable call graph, at its smallest function, ascending; none if and only if nothing recurses |
| Validation.Validator.FindEntry | compiler/src/native/capability.rs:377-424 | An entry is found if and only if exactly one function is named `main`; otherwise the code says that none is, or that several are, and then it is about the second smallest |
| Validation.CheckBody | compiler/src/native/capability.rs:616-690 | A body is accepted if and only if nothing that control can flow to is refused, given what every way there defines, and every load follows a store; otherwise the code is that of unkeyed blocks or a value defined twice, else of the first failing check of the first failing block, else of an uninitialized load |
| Availability.LiveMeansDefinedAlong | compiler/src/native/capability.rs:633-687 | A value can be used at a position if and only if it is a parameter or an instruction on every way of getting there defines it |
| Gates.InstructionGate | compiler/src/native/capability.rs:815-897 | An instruction is refused with a code if and only if its fields call for that code, operand by operand in order |
| Gates.ValueGate | compiler/src/native/capability.rs:920-1118 | The same for each kind of value: its declared type first, then what the kind requires |
| Gates.CallGate | compiler/src/native/capability.rs:1163-1261 | A call is refused with a code if and only if type arguments, evidence, the callee, the argument count, the first bad argument or the result call for it, in that order |
| Gates.TerminatorGate | compiler/src/native/capability.rs:1265-1378 | The same for terminators |
| Gates.SignatureGate | compiler/src/native/capability.rs:518-599 | A declaration is refused with a code if and only if its type parameters, requirements, raised effects, entry contract, first bad parameter or result call for it, in that order, and accepted if and only if none does |
| Exactness.BinaryGateIsExact | compiler/src/native/capability.rs:961-1043 | A binary operation on ordinary operands is accepted if and only if the interpreter gets through it on all data of their types, computing a datum of the declared type or overflowing; division, remainder and shifts, refused on purpose, have no meaning here |
| Exactness.NegGateIsExact | compiler/src/native/capability.rs:991-1000 | The same for negation |
| Exactness.NotGateIsExact | compiler/src/native/capability.rs:1001-1010 | The same for inversion |
| Exactness.ConstantGateIsExact | compiler/src/native/capability.rs:951-961 | A constant of the executed domain is accepted if and only if it is a datum of its declared type |
| Exactness.CallGateIsExact | compiler/src/native/capability.rs:1163-1261 | A call of ordinary arguments is accepted if and only if it is plain, declared with the callee's result, and the interpreter can enter the callee with all data of their types |
| Exactness.ReturnGateIsExact | compiler/src/native/capability.rs:1287-1325 | Returning an ordinary value is accepted if and only if all its data are of the declared result type |
| Exactness.BranchGateIsExact | compiler/src/native/capability.rs:1332-1358 | Branching on an ordinary value is accepted if and only if it is always a boolean and both targets are declared |
| Validation.ValueTypes | compiler/src/native/capability.rs:700-732 | Every declared value with its type, or the fact that one is defined twice |
| Validation.CheckSlotInitialization | compiler/src/native/capability.rs:1412-1465 | Accepted if and only if, whichever way control gets to a load, it has passed a store into the loaded slot; otherwise the code is that of an uninitialized load |
| Validation.CycleRoots | compiler/src/native/capability.rs:1496-1512 | From the components of a graph, exactly the smallest members of its cycles |
| Capability.CheckArguments | compiler/src/native/capability.rs:1163-1261 | Arguments are accepted if and only if each is an ordinary value of its parameter's scalar |
| Components.StronglyConnectedComponents | compiler/src/native/capability.rs:1705-1776 | Exactly the maximal mutually reachable sets: each sorted, disjoint, covering every node, ordered by smallest member; it terminates although lowlinks are also updated from finished children |
| Dataflow.MustReach | compiler/src/native/capability.rs:1530-1613 | A value is in a block's state if and only if every path from the entry block generates it or it was given at the start; the trace from the optimistic start to that state is one strict narrowing after another |
| Dataflow.NarrowingsBounded | compiler/src/native/capability.rs:1409-1411 | However narrowings are chosen, there are no more of them than values to take out: at most blocks times universe |
| Dataflow.ReachableBlocks | compiler/src/native/capability.rs:454-478 | Exactly the blocks control can flow to from `bb0`, whatever the terminators on the way, ascending |
| Nir.TerminatorTargets | compiler/src/native/capability.rs:1649-1669 | Exactly the blocks a terminator can go to: both arms of a conditional branch, every case of a switch, the success and every error target of an invoke |
| Dataflow.StoresAfter | compiler/src/native/capability.rs:1630-1641 | What was stored before a block, and every slot one of its stores writes |
| Dataflow.DefinesAfter | compiler/src/native/capability.rs:1615-1627 | What was defined before a block, and every result of one of its value instructions |
| Calls.DirectCalleesInOrder | compiler/src/native/capability.rs:1673-1696 | The callees of a function are listed call by call: block by block, instruction by instruction, an invoke last, with no call left out and none listed twice |
| Calls.CallsAreEdges | compiler/src/native/capability.rs:1673-1696 | One function calls another if and only if control can flow to a call of it |
| Postorder.ReversePostorder | compiler/src/native/lower.rs:427-478 | The worklist computes the order of the recursive depth-first traversal, a permutation of the planned blocks with every dominator before what it dominates; it fails only on a planned block that is not declared |
| Emission.LargerSuccessorIsEmittedFirst | compiler/src/native/lower.rs:449-475 | The entry's successors are visited in ascending order: a larger one that no smaller one leads to is emitted before every smaller one |
| Numeric.AddFlagIsExact | compiler/src/native/lower.rs:812-826 | The sign test after `iadd` holds if and only if the sum is outside the domain; otherwise the wrapped sum is the sum |
| Numeric.SubFlagIsExact | compiler/src/native/lower.rs:827-840 | The same for `isub` |
| Numeric.MulFlagIsExact | compiler/src/native/lower.rs:841-848 | `smulhi` differs from the sign of the wrapped product if and only if the product is outside the domain |
| Numeric.MulHighIsHighHalf | compiler/src/native/lower.rs:841-848 | What `smulhi` leaves out of a product is less than one unit of what it keeps |
| TargetRules.ShiftDividesDown | compiler/src/native/lower.rs:841-848 | The arithmetic shift of the multiplication test divides by a power of two, rounding down |
| Numeric.WrapIsCongruent | compiler/src/native/lower.rs:812-848 | Machine arithmetic keeps the low 64 bits of the exact result: the one word congruent to it |
| Numeric.NegFlagIsExact | compiler/src/native/lower.rs:742-751 | The operand is the minimum if and only if its negation is outside the domain |
| Numeric.BitsCombine | compiler/src/native/lower.rs:735-741 | Every bit of a conjunction, a disjunction or a difference of two words is the conjunction, disjunction or difference of their bits |
| Numeric.WordIsItsBits | compiler/src/native/lower.rs:735-741 | A word is the two's-complement value of its 64 bits |
| Numeric.BitNotFlipsEveryBit | compiler/src/native/lower.rs:753 | Inverting an integer flips every bit of its word, sign included |
| Numeric.ReducedStatusIsModulo256 | compiler/src/native/lower.rs:1038-1042 | Keeping 32 bits and then 8 of them leaves the value modulo 256 |

## Left out

- The Cranelift API, ELF emission, relocations, flags and the instruction selector: the small target machine stands in
  for them, a failure handler's `write` and `exit` are the one outcome `TFailed`, and a block's trap is unreachable.
- SSA value numbering: a register is named after the NIR value it belongs to rather than by a counter.
- Reading a variable before any store: Cranelift would supply a zero; here it is `TStuck`, which is proved not to occur.
- Messages, labels, help texts and source spans: a refusal is its code and the function it is about.
- `Capability.CheckArguments`: stated for calls whose argument count already matches, as the caller checks it first.
- `StorageOrder.StorageOrderIsIrrelevant`: lists of refusals are compared for distinct function ids; repeated ids are
  refused one by one in the order they are stored.
- Symbol names and their sanitizing: a function is known by its id.
- Unsupported NIR (aggregates, resources, observations, protocol calls, switches, invokes and raises): each kind is
  kept, so that the validator has something to refuse, and is given no meaning.
- NIR verification, NIR lowering, type checking and resource checking: what is needed from them is listed above.
- Evidence, type arguments and raised effects of calls: the accepted subset has none, so only their number is kept.
- Linking and publishing an executable, host and linker detection, and the command line.
- The front end: the lexer, the parser, name resolution into HIR and the structural places of resource checking are
  separate components, and none of the results here depends on them.
- The interpreter's floats, strings, characters, division, remainder and shifts: the backend refuses them, so no
  accepted program reaches them.
