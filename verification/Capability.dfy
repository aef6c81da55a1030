/** What the native backend accepts: the checks it makes, and the subset of programs they define. */
module Capability {
  import opened Wrappers
  import opened Nir
  import opened Graphs
  import opened Ordered
  import opened Dataflow

  const TARGET_TRIPLE: string := "x86_64-unknown-linux-gnu"
  const ENTRY_NAME: string := "main"

  datatype Code =
    | UnsupportedTarget
    | MissingEntry
    | DuplicateEntry
    | EntryParameters
    | EntryReturnType
    | UnsupportedType
    | UnsupportedInstruction
    | UnsupportedTerminator
    | UnsupportedOperator
    | GenericCode
    | CapabilityDispatch
    | FallibleFunction
    | UnknownCallee
    | CallSignatureMismatch
    | RecursiveCallGraph
    | MultiModuleBuild
    | UninitializedSlotLoad
    | SlotUsedAsValue
    | UnverifiedNir

  /** One reason a program is refused, about one function (the entry id 0 when it is about none). */
  datatype Refusal = Refusal(code: Code, item: ItemId)

  type Types = map<ValueId, Ty>

  /** What the checks of one function's body consult. */
  datatype Context = Context(functions: Functions, current: Function, blocks: Blocks, types: Types, slots: Values)

  /** The scalar of an operand that is no slot, is live, and has a native type; otherwise why it is not one. */
  function Operand(c: Context, live: Values, v: ValueId): Result<Scalar, Code> {
    if v in c.slots then Err(SlotUsedAsValue)
    else if v !in live then Err(UnverifiedNir)
    else if v !in c.types then Err(UnverifiedNir)
    else match ScalarOf(c.types[v])
         case Some(scalar) => Ok(scalar)
         case None => Err(UnsupportedType)
  }

  function SlotScalar(c: Context, slot: ValueId): Option<Scalar> {
    if slot in c.types then ScalarOf(c.types[slot]) else None
  }

  function CheckInstruction(c: Context, live: Values, instruction: Instruction): Option<Code> {
    match instruction
    case Value(_, ty, kind) => CheckValue(c, live, ty, kind)
    case Store(slot, value, mode) =>
      if mode != Observe then Some(Code.UnsupportedInstruction)
      else if slot !in c.slots then Some(UnverifiedNir)
      else (match Operand(c, live, value)
            case Err(code) => Some(code)
            case Ok(stored) => if SlotScalar(c, slot) != Some(stored) then Some(UnverifiedNir) else None)
    case UnsupportedInstruction(_) => Some(Code.UnsupportedInstruction)
  }

  function CheckValue(c: Context, live: Values, ty: Ty, kind: ValueKind): Option<Code> {
    match ScalarOf(ty)
    case None => Some(UnsupportedType)
    case Some(result) =>
      match kind
      case Alloc => None
      case Constant(value) => CheckConstant(result, value)
      case Load(slot) =>
        if slot !in c.slots then Some(UnverifiedNir)
        else if SlotScalar(c, slot) != Some(result) then Some(UnverifiedNir)
        else None
      case Binary(op, a, b) => CheckBinary(c, live, result, op, a, b)
      case Neg(a) =>
        (match Operand(c, live, a)
         case Err(code) => Some(code)
         case Ok(scalar) => if scalar != IntScalar || result != IntScalar then Some(UnverifiedNir) else None)
      case Not(a) =>
        (match Operand(c, live, a)
         case Err(code) => Some(code)
         case Ok(scalar) => if scalar != result || scalar == UnitScalar then Some(UnverifiedNir) else None)
      case Call(callee, typeArgs, args, evidence) => CheckCall(c, live, result, callee, typeArgs, args, evidence)
      case ProtocolCall(_) => Some(CapabilityDispatch)
      case UnsupportedKind(_) => Some(Code.UnsupportedInstruction)
  }

  function CheckConstant(result: Scalar, value: Const): Option<Code> {
    match value
    case IntConst(_) => if result == IntScalar then None else Some(UnverifiedNir)
    case BoolConst(_) => if result == BoolScalar then None else Some(UnverifiedNir)
    case UnitConst => if result == UnitScalar then None else Some(UnverifiedNir)
    case OtherConst(_) => Some(UnsupportedType)
  }

  predicate IsInteger(op: BinaryOp) {
    op in {Add, Sub, Mul, BitAnd, BitOr, BitXor}
  }

  /** The operators whose exceptional case has no native behaviour. */
  predicate IsRefused(op: BinaryOp) {
    op in {Div, Rem, Shl, Shr}
  }

  predicate IsOrdered(op: BinaryOp) {
    op in {Lt, Le, Gt, Ge}
  }

  function CheckBinary(c: Context, live: Values, result: Scalar, op: BinaryOp, a: ValueId, b: ValueId): Option<Code> {
    if IsRefused(op) then Some(UnsupportedOperator)
    else
      match (Operand(c, live, a), Operand(c, live, b))
      case (Err(code), _) => Some(code)
      case (_, Err(code)) => Some(code)
      case (Ok(left), Ok(right)) =>
        if IsInteger(op) then
          if left != IntScalar || right != IntScalar || result != IntScalar then Some(UnverifiedNir) else None
        else if left != right || result != BoolScalar then Some(UnverifiedNir)
        // `unit` is not ordered.
        else if IsOrdered(op) && left == UnitScalar then Some(UnsupportedOperator)
        else None
  }

  function CheckCall(c: Context, live: Values, result: Scalar, callee: ItemId, typeArgs: seq<Ty>, args: seq<ValueId>,
                     evidence: nat): Option<Code>
  {
    if typeArgs != [] then Some(GenericCode)
    else if evidence != 0 then Some(CapabilityDispatch)
    else if callee !in c.functions then Some(UnknownCallee)
    else
      var target := c.functions[callee];
      if |args| != |target.params| then Some(CallSignatureMismatch)
      else match CheckArguments(c, live, args, target.params)
           case Some(code) => Some(code)
           case None => if ScalarOf(target.returnType) != Some(result) then Some(CallSignatureMismatch) else None
  }

  /** The first argument its parameter refuses. */
  function CheckArguments(c: Context, live: Values, args: seq<ValueId>, params: seq<Param>): (r: Option<Code>)
    requires |args| == |params|
    ensures r.None? <==> forall i :: 0 <= i < |args| ==> ArgumentFits(c, live, args[i], params[i])
    ensures r != Some(RecursiveCallGraph)
  {
    if args == [] then None
    else match Operand(c, live, args[0])
         case Err(code) =>
           assert !ArgumentFits(c, live, args[0], params[0]);
           Some(code)
         case Ok(actual) =>
           if Some(actual) != ScalarOf(params[0].ty) then
             assert !ArgumentFits(c, live, args[0], params[0]);
             Some(CallSignatureMismatch)
           else
             assert forall i :: 1 <= i < |args| ==> args[i] == args[1..][i - 1] && params[i] == params[1..][i - 1];
             CheckArguments(c, live, args[1..], params[1..])
  }

  predicate ArgumentFits(c: Context, live: Values, arg: ValueId, param: Param) {
    var operand := Operand(c, live, arg);
    operand.Ok? && Some(operand.value) == ScalarOf(param.ty)
  }

  function CheckTerminator(c: Context, live: Values, terminator: Terminator): Option<Code> {
    match terminator
    case Return(None) => if ScalarOf(c.current.returnType) != Some(UnitScalar) then Some(UnverifiedNir) else None
    case Return(Some(value)) =>
      (match Operand(c, live, value)
       case Err(code) => Some(code)
       case Ok(actual) => if ScalarOf(c.current.returnType) != Some(actual) then Some(UnverifiedNir) else None)
    case Branch(target) => if target !in c.blocks then Some(UnverifiedNir) else None
    case CondBranch(condition, thenBlock, elseBlock) =>
      (match Operand(c, live, condition)
       case Err(code) => Some(code)
       case Ok(scalar) =>
         if scalar != BoolScalar then Some(UnverifiedNir)
         else if thenBlock !in c.blocks || elseBlock !in c.blocks then Some(UnverifiedNir)
         else None)
    case Switch(_, _) => Some(Code.UnsupportedTerminator)
    case Invoke(_, _, _) => Some(Code.UnsupportedTerminator)
    case Raise(_) => Some(Code.UnsupportedTerminator)
  }

  function CheckSignature(f: Function, isEntry: bool): Option<Code> {
    if f.typeParams != 0 then Some(GenericCode)
    else if f.requirements != 0 then Some(CapabilityDispatch)
    else if f.raises != 0 then Some(FallibleFunction)
    else if isEntry && f.params != [] then Some(EntryParameters)
    else if isEntry && ScalarOf(f.returnType) !in {Some(IntScalar), Some(UnitScalar)} then Some(EntryReturnType)
    else match CheckParameters(f.params)
         case Some(code) => Some(code)
         case None => if ScalarOf(f.returnType).None? then Some(UnsupportedType) else None
  }

  function CheckParameters(params: seq<Param>): (r: Option<Code>)
    ensures r.None? <==> forall p :: p in params ==> !p.take && ScalarOf(p.ty).Some?
    ensures r != Some(RecursiveCallGraph)
  {
    if params == [] then None
    else if params[0].take then Some(Code.UnsupportedInstruction)
    else if ScalarOf(params[0].ty).None? then Some(UnsupportedType)
    else CheckParameters(params[1..])
  }

  // What one function must satisfy, stated over its paths rather than over an analysis of them.

  /** The instruction at one position of a reachable block. */
  ghost predicate InstructionAt(blocks: Blocks, b: BlockId, i: int, instruction: Instruction) {
    BlockReachable(blocks, b) && b in blocks && 0 <= i < |blocks[b].instructions|
    && blocks[b].instructions[i] == instruction
  }

  ghost predicate Defines(blocks: Blocks, b: BlockId, i: int, v: ValueId) {
    BlockReachable(blocks, b) && b in blocks && 0 <= i < |blocks[b].instructions|
    && blocks[b].instructions[i].Value? && blocks[b].instructions[i].result == v
  }

  function ParameterValues(f: Function): (r: Values)
    ensures forall v :: v in r <==> exists i :: 0 <= i < |f.params| && f.params[i].value == v
  {
    set i | 0 <= i < |f.params| :: f.params[i].value
  }

  /** Every value has one definition: a parameter or one reachable instruction. */
  ghost predicate SingleDefinitions(f: Function, blocks: Blocks) {
    && (forall i, j :: 0 <= i < j < |f.params| ==> f.params[i].value != f.params[j].value)
    && (forall b, i, v :: Defines(blocks, b, i, v) ==> v !in ParameterValues(f))
    && (forall v {:trigger DefinedOnce(blocks, v)} :: DefinedOnce(blocks, v))
  }

  ghost predicate DefinedOnce(blocks: Blocks, v: ValueId) {
    forall b, i, c, j :: Defines(blocks, b, i, v) && Defines(blocks, c, j, v) ==> b == c && i == j
  }

  ghost predicate Declares(f: Function, blocks: Blocks, v: ValueId, ty: Ty) {
    || (exists i :: 0 <= i < |f.params| && f.params[i].value == v && f.params[i].ty == ty)
    || (exists b, i :: Defines(blocks, b, i, v) && blocks[b].instructions[i].ty == ty)
  }

  /** `types` gives exactly the declared values their declared types. */
  ghost predicate AreTypes(f: Function, blocks: Blocks, types: Types) {
    && (forall v :: v in types ==> Declares(f, blocks, v, types[v]))
    && (forall v, ty :: Declares(f, blocks, v, ty) ==> v in types && types[v] == ty)
  }

  ghost predicate AllocatedAt(blocks: Blocks, b: BlockId, i: int, s: ValueId) {
    Defines(blocks, b, i, s) && blocks[b].instructions[i].kind == Alloc
  }

  /** `slots` is exactly the results of the reachable `alloc`s. */
  ghost predicate AreSlots(blocks: Blocks, slots: Values) {
    forall s :: s in slots <==> exists b, i :: AllocatedAt(blocks, b, i, s)
  }

  ghost predicate IsContext(functions: Functions, f: Function, c: Context) {
    && c.functions == functions && c.current == f && c.blocks == BlockMap(f.blocks)
    && AreTypes(f, c.blocks, c.types)
    && AreSlots(c.blocks, c.slots)
  }

  /** The values defined on every path to position `i` of block `b`, parameters included. */
  ghost function LiveAt(c: Context, b: BlockId, i: nat): Values
    requires b in c.blocks && i <= |c.blocks[b].instructions|
  {
    set v | v in c.types
            && (v in ParameterValues(c.current)
                || v in DefinedIn(c.blocks[b].instructions[..i])
                || OnEveryPath(c.blocks, DefinesAfter, ParameterValues(c.current), v, b))
  }

  /** The slots stored on every path to position `i` of block `b`. */
  ghost function StoredAt(c: Context, b: BlockId, i: nat): Values
    requires b in c.blocks && i <= |c.blocks[b].instructions|
  {
    set s | s in c.slots
            && (s in StoredIn(c.blocks[b].instructions[..i])
                || OnEveryPath(c.blocks, StoresAfter, {}, s, b))
  }

  ghost predicate InstructionOk(c: Context, b: BlockId, i: nat)
    requires b in c.blocks && i < |c.blocks[b].instructions|
  {
    var instruction := c.blocks[b].instructions[i];
    && CheckInstruction(c, LiveAt(c, b, i), instruction) == None
    && (instruction.Value? && instruction.kind.Load? ==> instruction.kind.slot in StoredAt(c, b, i))
  }

  ghost predicate BlockOk(c: Context, b: BlockId)
    requires b in c.blocks
  {
    && (forall i :: 0 <= i < |c.blocks[b].instructions| ==> InstructionOk(c, b, i))
    && CheckTerminator(c, LiveAt(c, b, |c.blocks[b].instructions|), c.blocks[b].terminator) == None
  }

  ghost predicate ContextOk(c: Context) {
    forall b :: BlockReachable(c.blocks, b) && b in c.blocks ==> BlockOk(c, b)
  }

  /** Whether the blocks can be keyed at all. */
  ghost predicate BlocksKeyed(f: Function) {
    DistinctBlockIds(f.blocks) && ENTRY_BLOCK in BlockMap(f.blocks)
  }

  ghost predicate BodyOk(functions: Functions, f: Function) {
    && BlocksKeyed(f)
    && SingleDefinitions(f, BlockMap(f.blocks))
    && exists c :: IsContext(functions, f, c) && ContextOk(c)
  }

  /** The build a module is validated for. */
  datatype Build = Build(target: string, source: SourceId, origins: map<ItemId, SourceId>, imports: nat)

  predicate OriginOk(build: Build, id: ItemId) {
    id in build.origins ==> build.origins[id] == build.source
  }

  ghost predicate FunctionOk(functions: Functions, build: Build, id: ItemId, isEntry: bool) {
    && id in functions
    && OriginOk(build, id)
    && CheckSignature(functions[id], isEntry) == None
    && BodyOk(functions, functions[id])
  }

  /** The callees of the given blocks, block by block; an `invoke` counts although it is refused. */
  function DirectCallees(blocks: Blocks, reachable: seq<BlockId>): seq<ItemId> {
    if reachable == [] then []
    else (if reachable[0] in blocks then BlockCallees(blocks[reachable[0]]) else [])
         + DirectCallees(blocks, reachable[1..])
  }

  function BlockCallees(block: BasicBlock): seq<ItemId> {
    CalledBy(block.instructions) + (if block.terminator.Invoke? then [block.terminator.callee] else [])
  }

  function CalledBy(instructions: seq<Instruction>): (r: seq<ItemId>)
    ensures forall i :: 0 <= i < |instructions| && instructions[i].Value? && instructions[i].kind.Call? ==>
                          instructions[i].kind.callee in r
  {
    if instructions == [] then []
    else
      var rest := CalledBy(instructions[1..]);
      assert forall i :: 1 <= i < |instructions| ==> instructions[i] == instructions[1..][i - 1];
      if instructions[0].Value? && instructions[0].kind.Call? then [instructions[0].kind.callee] + rest else rest
  }

  ghost function ReachableSeq(blocks: Blocks): (r: seq<BlockId>)
    ensures AreReachableBlocks(blocks, r)
  {
    var reached := set b | b in blocks && BlockReachable(blocks, b);
    assert forall b :: BlockReachable(blocks, b) ==> b in blocks by {
      forall b | BlockReachable(blocks, b) ensures b in blocks { ReachInGraph(Cfg(blocks), ENTRY_BLOCK, b); }
    }
    Ascending(reached)
  }

  /** The functions one function calls; one whose blocks cannot be keyed contributes no calls. */
  ghost function CalleesOf(f: Function): seq<ItemId> {
    if BlocksKeyed(f) then DirectCallees(BlockMap(f.blocks), ReachableSeq(BlockMap(f.blocks))) else []
  }

  /** The direct-call graph. */
  ghost function CallGraph(functions: Functions): Graph {
    map id | id in functions :: CalleesOf(functions[id])
  }

  ghost predicate IsEntry(functions: Functions, id: ItemId) {
    id in functions && functions[id].name == ENTRY_NAME
  }

  ghost predicate SoleEntry(functions: Functions, entry: ItemId) {
    forall id :: IsEntry(functions, id) <==> id == entry
  }

  /** The native subset: what `validate` accepts, with `entry` as the program's `main`. */
  ghost predicate InSubset(m: Module, build: Build, entry: ItemId) {
    var functions := FunctionMap(m.functions);
    && build.target == TARGET_TRIPLE
    && DistinctFunctionIds(m.functions)
    && build.imports == 0
    && SoleEntry(functions, entry)
    && (forall id :: Reach(CallGraph(functions), entry, id) ==> FunctionOk(functions, build, id, id == entry))
    && (forall id :: Reach(CallGraph(functions), entry, id) ==> !ReachPlus(CallGraph(functions), id, id))
  }

  lemma SubsetFunction(m: Module, build: Build, entry: ItemId, id: ItemId)
    requires InSubset(m, build, entry) && Reach(CallGraph(FunctionMap(m.functions)), entry, id)
    ensures FunctionOk(FunctionMap(m.functions), build, id, id == entry)
  {
  }

  lemma SubsetEntry(m: Module, build: Build, entry: ItemId)
    requires InSubset(m, build, entry)
    ensures entry in FunctionMap(m.functions)
    ensures Reach(CallGraph(FunctionMap(m.functions)), entry, entry)
  {
    assert IsEntry(FunctionMap(m.functions), entry);
    ReachSelf(CallGraph(FunctionMap(m.functions)), entry);
  }

  lemma FunctionOkParts(functions: Functions, build: Build, id: ItemId, isEntry: bool)
    requires FunctionOk(functions, build, id, isEntry)
    ensures id in functions && BodyOk(functions, functions[id]) && CheckParameters(functions[id].params) == None
    ensures ScalarOf(functions[id].returnType).Some?
    ensures isEntry ==> functions[id].params == []
                        && ScalarOf(functions[id].returnType) in {Some(IntScalar), Some(UnitScalar)}
  {
  }

  lemma EntryHasScalar(m: Module, build: Build, entry: ItemId)
    requires InSubset(m, build, entry)
    ensures var functions := FunctionMap(m.functions);
            entry in functions && ScalarOf(functions[entry].returnType) in {Some(IntScalar), Some(UnitScalar)}
  {
    SubsetEntry(m, build, entry);
    SubsetFunction(m, build, entry, entry);
    FunctionOkParts(FunctionMap(m.functions), build, entry, true);
  }

  /** What code generation is told to compile. */
  datatype NativePlan = NativePlan(
    entry: ItemId,
    entryResult: Scalar,
    functions: seq<ItemId>,
    reachableBlocks: map<ItemId, seq<BlockId>>)

  /** The plan of an accepted program: its reachable functions and blocks, ascending. */
  ghost predicate IsPlan(m: Module, entry: ItemId, plan: NativePlan) {
    var functions := FunctionMap(m.functions);
    && plan.entry == entry
    && entry in functions && ScalarOf(functions[entry].returnType) == Some(plan.entryResult)
    && StrictlyAscending(plan.functions)
    && (forall id :: id in plan.functions <==> Reach(CallGraph(functions), entry, id))
    && (forall id :: id in plan.reachableBlocks <==> id in plan.functions)
    && (forall id :: id in plan.functions && id in functions ==>
                       AreReachableBlocks(BlockMap(functions[id].blocks), plan.reachableBlocks[id]))
  }

  lemma PlannedScalar(m: Module, entry: ItemId, plan: NativePlan)
    requires IsPlan(m, entry, plan) && entry in FunctionMap(m.functions)
    ensures ScalarOf(FunctionMap(m.functions)[entry].returnType) == Some(plan.entryResult)
  {
  }

  lemma PlannedIsReached(m: Module, entry: ItemId, plan: NativePlan, id: ItemId)
    requires IsPlan(m, entry, plan)
    ensures id in plan.functions <==> Reach(CallGraph(FunctionMap(m.functions)), entry, id)
  {
  }
}
