/** Lowering one function body, instruction by instruction, into a target function under construction. */
module Bodies {
  import opened Wrappers
  import opened Numeric
  import opened Nir
  import opened Graphs
  import opened Dataflow
  import opened Postorder
  import opened Capability
  import opened TypeSafety
  import opened TargetIr
  import opened Lowering

  /** The target function so far: its finished blocks, and the one being filled. */
  datatype Builder = Builder(code: map<Label, BlockCode>, current: Label, open: seq<Inst>)

  /** Adds instructions to the open block; a guard ends it and opens the block control continues in. */
  function Append(b: Builder, insts: seq<Inst>, guard: Option<Guard>): Builder {
    match guard
    case None => b.(open := b.open + insts)
    case Some(Guard(op, flag, v)) =>
      Builder(b.code[b.current := BlockCode(b.open + insts, Brif(flag, Failure(v), Continued(v)))]
                    [Failure(v) := BlockCode([CallHandler(op)], Trap)],
              Continued(v), [])
  }

  /** The code from one position of a block on, up to the next guard or the block's end. */
  function CodeFrom(steps: seq<Lowering.Step>, exit: Exit, i: nat): BlockCode
    requires i <= |steps|
    decreases |steps| - i
  {
    if i == |steps| then BlockCode([], exit)
    else
      match steps[i].guard
      case None =>
        var rest := CodeFrom(steps, exit, i + 1);
        BlockCode(steps[i].insts + rest.insts, rest.exit)
      case Some(Guard(_, flag, v)) => BlockCode(steps[i].insts, Brif(flag, Failure(v), Continued(v)))
  }

  /** A guarded step has its failure block, and a block that continues after it. */
  ghost predicate GuardEmitted(code: map<Label, BlockCode>, steps: seq<Lowering.Step>, exit: Exit, i: int) {
    0 <= i < |steps| && steps[i].guard.Some? ==>
      var v, next := steps[i].guard.value.value, i + 1;
      && Failure(v) in code && code[Failure(v)] == BlockCode([CallHandler(steps[i].guard.value.op)], Trap)
      && Continued(v) in code && code[Continued(v)] == CodeFrom(steps, exit, next)
  }

  ghost predicate BlockEmitted(code: map<Label, BlockCode>, id: BlockId, steps: seq<Lowering.Step>, exit: Exit) {
    && Main(id) in code && code[Main(id)] == CodeFrom(steps, exit, 0)
    && forall i {:trigger GuardEmitted(code, steps, exit, i)} :: GuardEmitted(code, steps, exit, i)
  }

  /** What filling the rest of a block from position `i` on makes of the builder. */
  function Emit(b: Builder, steps: seq<Lowering.Step>, exit: Exit, i: nat): map<Label, BlockCode>
    requires i <= |steps|
    decreases |steps| - i
  {
    if i == |steps| then b.code[b.current := BlockCode(b.open, exit)]
    else Emit(Append(b, steps[i].insts, steps[i].guard), steps, exit, i + 1)
  }

  predicate DistinctGuards(steps: seq<Lowering.Step>) {
    forall i, j :: 0 <= i < j < |steps| && steps[i].guard.Some? && steps[j].guard.Some? ==>
                     steps[i].guard.value.value != steps[j].guard.value.value
  }

  /** The labels filling a block from position `i` on creates. */
  ghost predicate CreatedFrom(steps: seq<Lowering.Step>, i: nat, target: Label) {
    (target.Failure? || target.Continued?)
    && exists j :: i <= j < |steps| && steps[j].guard.Some? && steps[j].guard.value.value == target.value
  }

  lemma {:induction false} EmitFills(b: Builder, steps: seq<Lowering.Step>, exit: Exit, i: nat)
    requires i <= |steps| && DistinctGuards(steps) && !CreatedFrom(steps, i, b.current)
    ensures var code := Emit(b, steps, exit, i);
            var rest := CodeFrom(steps, exit, i);
            && b.current in code && code[b.current] == BlockCode(b.open + rest.insts, rest.exit)
            && (forall target {:trigger CreatedFrom(steps, i, target)} {:trigger target in code} ::
                  target != b.current && !CreatedFrom(steps, i, target) ==>
                  (target in code <==> target in b.code) && (target in code ==> code[target] == b.code[target]))
            && (forall k {:trigger GuardEmitted(code, steps, exit, k)} :: i <= k ==> GuardEmitted(code, steps, exit, k))
    decreases |steps| - i
  {
    if i == |steps| {
      assert b.open + [] == b.open;
    } else {
      var next := Append(b, steps[i].insts, steps[i].guard);
      EmitFills(next, steps, exit, i + 1);
      var code := Emit(b, steps, exit, i);
      forall k | i <= k
        ensures GuardEmitted(code, steps, exit, k)
      {
        if k == i && steps[i].guard.Some? {
          var v := steps[i].guard.value.value;
          assert !CreatedFrom(steps, i + 1, Failure(v));
        }
      }
      var rest := CodeFrom(steps, exit, i + 1);
      assert b.open + (steps[i].insts + rest.insts) == (b.open + steps[i].insts) + rest.insts;
    }
  }

  const NOTHING: Lowering.Step := Step([], None, None)

  /** The code of a block's instructions, one step each. */
  function StepsOf(natives: Natives, targets: Functions, block: BasicBlock): (steps: seq<Lowering.Step>)
    ensures |steps| == |block.instructions|
  {
    seq(|block.instructions|, i requires 0 <= i < |block.instructions| =>
      match InstructionCode(natives, targets, block.instructions[i])
      case Ok(step) => step
      case Err(_) => NOTHING)
  }

  function ExitOf(natives: Natives, ids: set<BlockId>, block: BasicBlock): Exit {
    match ExitCode(natives, ids, block.terminator)
    case Ok(exit) => exit
    case Err(_) => Trap
  }

  // What every value of an accepted function becomes.

  function NativeFor(isSlot: bool, scalar: Scalar, v: ValueId): Native {
    if isSlot then NativeSlot(if AbiType(scalar).Some? then Some(v) else None, scalar)
    else Held(scalar, Reg(v, 0))
  }

  ghost function NativesOf(c: Context): (natives: Natives)
    ensures natives.Keys == c.types.Keys
  {
    map v | v in c.types ::
      NativeFor(v in c.slots, if ScalarOf(c.types[v]).Some? then ScalarOf(c.types[v]).value else UnitScalar, v)
  }

  lemma OperandNative(c: Context, live: Values, v: ValueId)
    requires Operand(c, live, v).Ok?
    ensures Lookup(NativesOf(c), v) == Ok(Held(Operand(c, live, v).value, Reg(v, 0)))
  {
  }

  lemma SlotNative(c: Context, slot: ValueId, scalar: Scalar)
    requires slot in c.slots && SlotScalar(c, slot) == Some(scalar)
    ensures Lookup(NativesOf(c), slot) == Ok(NativeFor(true, scalar, slot))
  {
  }

  /** What a checked value becomes is determined by its declared type. */
  ghost predicate Becomes(code: Lowered<Fragment>, native: Native) {
    code.Ok? && code.value.native == native
  }

  lemma BinaryLowers(c: Context, live: Values, result: ValueId, scalar: Scalar, op: BinaryOp, a: ValueId, b: ValueId)
    requires CheckBinary(c, live, scalar, op, a, b) == None
    ensures Becomes(BinaryCode(NativesOf(c), op, result, a, b), Held(scalar, Reg(result, 0)))
  {
    OperandNative(c, live, a);
    OperandNative(c, live, b);
  }

  lemma {:induction false} ArgumentsLower(c: Context, live: Values, args: seq<ValueId>, params: seq<Param>)
    requires |args| == |params|
    requires forall i :: 0 <= i < |args| ==> ArgumentFits(c, live, args[i], params[i])
    ensures ArgumentRegisters(NativesOf(c), args).Ok?
  {
    if args != [] {
      var last := |args| - 1;
      assert ArgumentFits(c, live, args[last], params[last]);
      OperandNative(c, live, args[last]);
      ArgumentsLower(c, live, args[..last], params[..last]);
    }
  }

  lemma CallLowers(c: Context, live: Values, targets: Functions, result: ValueId, scalar: Scalar, callee: ItemId,
                   typeArgs: seq<Ty>, args: seq<ValueId>, evidence: nat)
    requires CheckCall(c, live, scalar, callee, typeArgs, args, evidence) == None
    requires callee in targets && targets[callee] == c.functions[callee]
    ensures Becomes(CallCode(NativesOf(c), targets, result, callee, args), Held(scalar, Reg(result, 0)))
  {
    ArgumentsLower(c, live, args, c.functions[callee].params);
  }

  /** A checked value has code, whatever its kind, provided its constant fits and its callee is compiled too. */
  lemma ValueLowers(c: Context, live: Values, targets: Functions, result: ValueId, ty: Ty, kind: ValueKind)
    requires CheckValue(c, live, ty, kind) == None
    requires kind.Constant? && kind.value.IntConst? ==> InI64(kind.value.literal)
    requires kind.Call? && kind.callee in c.functions ==>
               kind.callee in targets && targets[kind.callee] == c.functions[kind.callee]
    ensures Becomes(ValueCode(NativesOf(c), targets, result, ty, kind),
                    NativeFor(kind.Alloc?, ScalarOf(ty).value, result))
  {
    var scalar := ScalarOf(ty).value;
    match kind
    case Load(slot) => SlotNative(c, slot, scalar);
    case Binary(op, a, b) => BinaryLowers(c, live, result, scalar, op, a, b);
    case Neg(a) => OperandNative(c, live, a);
    case Not(a) => OperandNative(c, live, a);
    case Call(callee, typeArgs, args, evidence) =>
      CallLowers(c, live, targets, result, scalar, callee, typeArgs, args, evidence);
    case _ =>
  }

  /** A constant is lowered exactly when it fits the executed domain; the native checks let any magnitude by. */
  lemma ConstantLowersExactlyWhenItFits(c: Context, live: Values, targets: Functions, result: ValueId, ty: Ty,
                                        literal: int)
    requires ScalarOf(ty) == Some(IntScalar)
    ensures CheckValue(c, live, ty, Constant(IntConst(literal))) == None
    ensures ValueCode(NativesOf(c), targets, result, ty, Constant(IntConst(literal))).Ok? <==> InI64(literal)
  {
  }

  lemma StoreLowers(c: Context, live: Values, slot: ValueId, value: ValueId)
    requires CheckInstruction(c, live, Store(slot, value, Observe)) == None
    ensures StoreCode(NativesOf(c), slot, value).Ok?
  {
    OperandNative(c, live, value);
    SlotNative(c, slot, Operand(c, live, value).value);
  }

  lemma ExitLowers(c: Context, live: Values, ids: set<BlockId>, terminator: Terminator)
    requires CheckTerminator(c, live, terminator) == None
    requires forall target :: target in TerminatorTargets(terminator) && target in c.blocks ==> target in ids
    ensures ExitCode(NativesOf(c), ids, terminator).Ok?
  {
    match terminator
    case Return(Some(v)) => OperandNative(c, live, v);
    case CondBranch(condition, _, _) => OperandNative(c, live, condition);
    case _ =>
  }

  // Code depends only on what the operands became.

  function KindUses(kind: ValueKind): seq<ValueId> {
    match kind
    case Load(slot) => [slot]
    case Binary(_, a, b) => [a, b]
    case Neg(a) => [a]
    case Not(a) => [a]
    case Call(_, _, args, _) => args
    case _ => []
  }

  function Uses(instruction: Instruction): seq<ValueId> {
    match instruction
    case Value(_, _, kind) => KindUses(kind)
    case Store(slot, value, _) => [slot, value]
    case _ => []
  }

  function ExitUses(terminator: Terminator): seq<ValueId> {
    match terminator
    case Return(Some(v)) => [v]
    case CondBranch(condition, _, _) => [condition]
    case _ => []
  }

  /** `a` and `b` have the same entries for `uses`. */
  ghost predicate SameOn(a: Natives, b: Natives, uses: seq<ValueId>) {
    forall i :: 0 <= i < |uses| ==> Lookup(a, uses[i]) == Lookup(b, uses[i])
  }

  lemma {:induction false} SameArguments(a: Natives, b: Natives, args: seq<ValueId>)
    requires SameOn(a, b, args)
    ensures ArgumentRegisters(a, args) == ArgumentRegisters(b, args)
  {
    if args != [] {
      assert Lookup(a, args[|args| - 1]) == Lookup(b, args[|args| - 1]);
      SameArguments(a, b, args[..|args| - 1]);
    }
  }

  lemma SameBinaryCode(a: Natives, b: Natives, op: BinaryOp, result: ValueId, x: ValueId, y: ValueId)
    requires Lookup(a, x) == Lookup(b, x) && Lookup(a, y) == Lookup(b, y)
    ensures BinaryCode(a, op, result, x, y) == BinaryCode(b, op, result, x, y)
  {
  }

  lemma SameInstructionCode(a: Natives, b: Natives, targets: Functions, instruction: Instruction)
    requires SameOn(a, b, Uses(instruction))
    ensures InstructionCode(a, targets, instruction) == InstructionCode(b, targets, instruction)
  {
    var uses := Uses(instruction);
    if |uses| > 0 { assert Lookup(a, uses[0]) == Lookup(b, uses[0]); }
    if |uses| > 1 { assert Lookup(a, uses[1]) == Lookup(b, uses[1]); }
    match instruction
    case Value(_, _, Call(_, _, args, _)) => SameArguments(a, b, args);
    case Value(result, _, Binary(op, x, y)) => SameBinaryCode(a, b, op, result, x, y);
    case _ =>
  }

  lemma SameExitCode(a: Natives, b: Natives, ids: set<BlockId>, terminator: Terminator)
    requires SameOn(a, b, ExitUses(terminator))
    ensures ExitCode(a, ids, terminator) == ExitCode(b, ids, terminator)
  {
    var uses := ExitUses(terminator);
    if |uses| > 0 { assert Lookup(a, uses[0]) == Lookup(b, uses[0]); }
  }

  // Every operand is lowered before it is used.

  /** What lowering one function relies on: the facts its checks established, and that its callees are planned. */
  ghost predicate Ready(functions: Functions, targets: Functions, f: Function, c: Context) {
    && BlocksKeyed(f) && SingleDefinitions(f, c.blocks)
    && IsContext(functions, f, c) && ContextOk(c)
    && CheckParameters(f.params) == None && ScalarOf(f.returnType).Some?
    && CalleesPlanned(c, targets)
  }

  ghost predicate CalleesPlanned(c: Context, targets: Functions) {
    forall b, i, instruction {:trigger InstructionAt(c.blocks, b, i, instruction)} ::
      InstructionAt(c.blocks, b, i, instruction) ==> CalleePlanned(c, targets, instruction)
  }

  predicate CalleePlanned(c: Context, targets: Functions, instruction: Instruction) {
    instruction.Value? && instruction.kind.Call? && instruction.kind.callee in c.functions ==>
      instruction.kind.callee in targets && targets[instruction.kind.callee] == c.functions[instruction.kind.callee]
  }

  /** The values lowered before position `k` of the emission order: parameters, and what earlier blocks define. */
  function KnownBefore(blocks: Blocks, parameters: Values, order: seq<BlockId>, k: nat): Values
    requires k <= |order|
  {
    if k == 0 then parameters
    else
      var b := order[k - 1];
      KnownBefore(blocks, parameters, order, k - 1) + (if b in blocks then DefinedIn(blocks[b].instructions) else {})
  }

  lemma {:induction false} EarlierIsKnown(blocks: Blocks, parameters: Values, order: seq<BlockId>, j: nat, k: nat)
    requires j < k <= |order| && order[j] in blocks
    ensures DefinedIn(blocks[order[j]].instructions) <= KnownBefore(blocks, parameters, order, k)
  {
    if j < k - 1 {
      EarlierIsKnown(blocks, parameters, order, j, k - 1);
    }
  }

  lemma {:induction false} ParametersAreKnown(blocks: Blocks, parameters: Values, order: seq<BlockId>, k: nat)
    requires k <= |order|
    ensures parameters <= KnownBefore(blocks, parameters, order, k)
  {
    if k > 0 {
      ParametersAreKnown(blocks, parameters, order, k - 1);
    }
  }

  /** What is lowered before position `i` of the block at position `k`. */
  ghost predicate LoweredBefore(c: Context, order: seq<BlockId>, k: nat, i: nat, v: ValueId)
    requires k < |order| && order[k] in c.blocks && i <= |c.blocks[order[k]].instructions|
  {
    v in KnownBefore(c.blocks, ParameterValues(c.current), order, k) + DefinedIn(c.blocks[order[k]].instructions[..i])
  }

  ghost predicate Order(c: Context, reachable: seq<BlockId>, order: seq<BlockId>) {
    AreReachableBlocks(c.blocks, reachable)
    && IsEmissionOrder(LiveCfg(c.blocks, Members(reachable)), order)
  }

  lemma LivePathIsPath(blocks: Blocks, live: set<BlockId>, p: seq<BlockId>, a: BlockId, b: BlockId)
    requires PathFromTo(LiveCfg(blocks, live), p, a, b)
    ensures PathFromTo(Cfg(blocks), p, a, b)
  {
    forall i
      ensures Graphs.Step(Cfg(blocks), p, i)
    {
      assert Graphs.Step(LiveCfg(blocks, live), p, i);
    }
  }

  lemma DominatesInLive(blocks: Blocks, live: set<BlockId>, d: BlockId, b: BlockId)
    requires Dominates(Cfg(blocks), ENTRY_BLOCK, d, b)
    ensures Dominates(LiveCfg(blocks, live), ENTRY_BLOCK, d, b)
  {
    forall p | PathFromTo(LiveCfg(blocks, live), p, ENTRY_BLOCK, b)
      ensures d in p
    {
      LivePathIsPath(blocks, live, p, ENTRY_BLOCK, b);
    }
  }

  lemma PathIsLivePath(c: Context, reachable: seq<BlockId>, p: seq<BlockId>, b: BlockId)
    requires ContextOk(c) && AreReachableBlocks(c.blocks, reachable)
    requires PathFromTo(Cfg(c.blocks), p, ENTRY_BLOCK, b)
    ensures PathFromTo(LiveCfg(c.blocks, Members(reachable)), p, ENTRY_BLOCK, b)
  {
    var g := Cfg(c.blocks);
    var live := LiveCfg(c.blocks, Members(reachable));
    forall i | 0 <= i < |p|
      ensures p[i] in live && BlockOk(c, p[i])
    {
      PathPrefix(g, p, i + 1);
    }
    forall i
      ensures Graphs.Step(live, p, i)
    {
      assert Graphs.Step(g, p, i);
    }
  }

  /** The emission order holds exactly the planned blocks, and a block after whatever dominates it. */
  lemma OrderIsPlanned(c: Context, reachable: seq<BlockId>, order: seq<BlockId>)
    requires ContextOk(c) && Order(c, reachable, order)
    ensures forall b :: b in order <==> BlockReachable(c.blocks, b)
  {
    var live := Members(reachable);
    forall b
      ensures b in order <==> BlockReachable(c.blocks, b)
    {
      if BlockReachable(c.blocks, b) {
        var p :| PathFromTo(Cfg(c.blocks), p, ENTRY_BLOCK, b);
        PathIsLivePath(c, reachable, p, b);
      }
      if b in order {
        var p :| PathFromTo(LiveCfg(c.blocks, live), p, ENTRY_BLOCK, b);
        LivePathIsPath(c.blocks, live, p, ENTRY_BLOCK, b);
      }
    }
  }

  lemma DominatorIsEarlier(c: Context, reachable: seq<BlockId>, order: seq<BlockId>, k: nat, d: BlockId)
    returns (j: nat)
    requires Order(c, reachable, order) && k < |order|
    requires d != order[k] && Dominates(Cfg(c.blocks), ENTRY_BLOCK, d, order[k])
    ensures j < k && order[j] == d
  {
    DominatesInLive(c.blocks, Members(reachable), d, order[k]);
    assert d in order[..k + 1];
    j :| 0 <= j < k + 1 && order[..k + 1][j] == d;
  }

  /** A value available in a block but not defined in it comes from one block that dominates it. */
  lemma AvailableFromDominator(c: Context, b: BlockId, v: ValueId) returns (d: BlockId)
    requires SingleDefinitions(c.current, c.blocks) && BlockReachable(c.blocks, b)
    requires v !in ParameterValues(c.current)
    requires OnEveryPath(c.blocks, DefinesAfter, ParameterValues(c.current), v, b)
    ensures d != b && d in c.blocks && v in DefinedIn(c.blocks[d].instructions)
    ensures BlockReachable(c.blocks, d) && Dominates(Cfg(c.blocks), ENTRY_BLOCK, d, b)
  {
    var g := Cfg(c.blocks);
    var p :| PathFromTo(g, p, ENTRY_BLOCK, b);
    var k := FirstOccurrence(p, b);
    PathPrefix(g, p, k + 1);
    var q := p[..k + 1];
    d := Generator(c, q, v);
    assert d in p[..k];
    var i :| 0 <= i < |c.blocks[d].instructions| && c.blocks[d].instructions[i].Value?
             && c.blocks[d].instructions[i].result == v;
    assert Defines(c.blocks, d, i, v) && DefinedOnce(c.blocks, v);
    forall r | PathFromTo(g, r, ENTRY_BLOCK, b)
      ensures d in r
    {
      var e := Generator(c, r, v);
      var j :| 0 <= j < |c.blocks[e].instructions| && c.blocks[e].instructions[j].Value?
               && c.blocks[e].instructions[j].result == v;
      assert Defines(c.blocks, e, j, v);
    }
  }

  lemma Generator(c: Context, p: seq<BlockId>, v: ValueId) returns (d: BlockId)
    requires IsPath(Cfg(c.blocks), p) && p[0] == ENTRY_BLOCK
    requires GeneratedBefore(c.blocks, DefinesAfter, v, p)
    ensures d in p[..|p| - 1] && d in p && d in c.blocks && BlockReachable(c.blocks, d)
    ensures v in DefinedIn(c.blocks[d].instructions)
  {
    var n :| 0 <= n < |p| - 1 && p[n] in c.blocks && v in DefinesAfter({}, c.blocks[p[n]]);
    d := p[n];
    PathPrefix(Cfg(c.blocks), p, n + 1);
    assert p[..|p| - 1][n] == d;
  }

  lemma LiveIsLowered(c: Context, reachable: seq<BlockId>, order: seq<BlockId>, k: nat, i: nat, v: ValueId)
    requires SingleDefinitions(c.current, c.blocks) && ContextOk(c) && Order(c, reachable, order)
    requires k < |order| && order[k] in c.blocks && i <= |c.blocks[order[k]].instructions|
    requires v in LiveAt(c, order[k], i)
    ensures LoweredBefore(c, order, k, i, v)
  {
    OrderIsPlanned(c, reachable, order);
    if v !in ParameterValues(c.current) && v !in DefinedIn(c.blocks[order[k]].instructions[..i]) {
      var d := AvailableFromDominator(c, order[k], v);
      var j := DominatorIsEarlier(c, reachable, order, k, d);
      EarlierIsKnown(c.blocks, ParameterValues(c.current), order, j, k);
    }
    ParametersAreKnown(c.blocks, ParameterValues(c.current), order, k);
  }

  /** The value an instruction defines is not among those it can use. */
  lemma ResultNotLive(c: Context, b: BlockId, i: nat, v: ValueId)
    requires SingleDefinitions(c.current, c.blocks) && Defines(c.blocks, b, i, v)
    ensures v !in LiveAt(c, b, i)
  {
    var before := c.blocks[b].instructions[..i];
    assert DefinedOnce(c.blocks, v);
    forall j | 0 <= j < |before|
      ensures !(before[j].Value? && before[j].result == v)
    {
      assert Defines(c.blocks, b, j, v) ==> j == i;
    }
    if OnEveryPath(c.blocks, DefinesAfter, ParameterValues(c.current), v, b) {
      DefinedNowhereElse(c, b, i, v);
    }
  }

  lemma DefinedNowhereElse(c: Context, b: BlockId, i: nat, v: ValueId)
    requires SingleDefinitions(c.current, c.blocks) && Defines(c.blocks, b, i, v)
    requires v !in ParameterValues(c.current)
    ensures !OnEveryPath(c.blocks, DefinesAfter, ParameterValues(c.current), v, b)
  {
    if OnEveryPath(c.blocks, DefinesAfter, ParameterValues(c.current), v, b) {
      var d := AvailableFromDominator(c, b, v);
      OneDefiningBlock(c, b, i, d, v);
    }
  }

  lemma OneDefiningBlock(c: Context, b: BlockId, i: nat, d: BlockId, v: ValueId)
    requires SingleDefinitions(c.current, c.blocks) && Defines(c.blocks, b, i, v)
    requires BlockReachable(c.blocks, d) && d in c.blocks && v in DefinedIn(c.blocks[d].instructions)
    ensures d == b
  {
    var j :| 0 <= j < |c.blocks[d].instructions| && c.blocks[d].instructions[j].Value?
             && c.blocks[d].instructions[j].result == v;
    assert Defines(c.blocks, d, j, v) && DefinedOnce(c.blocks, v);
  }

  /** Position `i` of `b` comes before position `j` of `d` when the blocks are filled in `order`. */
  ghost predicate EmittedBefore(order: seq<BlockId>, b: BlockId, i: int, d: BlockId, j: int) {
    if b == d then i < j else exists m, k :: 0 <= m < k < |order| && order[m] == b && order[k] == d
  }

  /** In the order of emission, the `alloc` of a slot comes before every store to it and every load from it. */
  ghost predicate AllocsFirst(blocks: Blocks, order: seq<BlockId>) {
    forall b, i, s, d, j ::
      AllocatedAt(blocks, b, i, s) && (StoredTo(blocks, d, j, s) || LoadedFrom(blocks, d, j, s)) ==>
        EmittedBefore(order, b, i, d, j)
  }

  /** An `alloc` that dominates what uses its slot is emitted before it. */
  lemma DominatingAllocsAreFirst(c: Context, reachable: seq<BlockId>, order: seq<BlockId>)
    requires AllocsDominate(c.blocks) && ContextOk(c) && Order(c, reachable, order)
    ensures AllocsFirst(c.blocks, order)
  {
    OrderIsPlanned(c, reachable, order);
    DominatingUsesAreLater(c, reachable, order);
  }

  lemma DominatingUsesAreLater(c: Context, reachable: seq<BlockId>, order: seq<BlockId>)
    requires AllocsDominate(c.blocks) && Order(c, reachable, order)
    requires forall e :: e in order <==> BlockReachable(c.blocks, e)
    ensures AllocsFirst(c.blocks, order)
  {
    forall b, i, s, d, j | AllocatedAt(c.blocks, b, i, s)
                           && (StoredTo(c.blocks, d, j, s) || LoadedFrom(c.blocks, d, j, s))
      ensures EmittedBefore(order, b, i, d, j)
    {
      UseIsDominated(c.blocks, b, i, s, d, j);
      DominatingIsFirst(c, reachable, order, b, i, d, j);
    }
  }

  lemma UseIsDominated(blocks: Blocks, b: BlockId, i: int, s: ValueId, d: BlockId, j: int)
    requires AllocsDominate(blocks)
    requires AllocatedAt(blocks, b, i, s) && (StoredTo(blocks, d, j, s) || LoadedFrom(blocks, d, j, s))
    ensures PositionDominates(blocks, b, i, d, j) && BlockReachable(blocks, d)
  {
  }

  lemma DominatingIsFirst(c: Context, reachable: seq<BlockId>, order: seq<BlockId>, b: BlockId, i: int, d: BlockId,
                          j: int)
    requires Order(c, reachable, order) && d in order && PositionDominates(c.blocks, b, i, d, j)
    ensures EmittedBefore(order, b, i, d, j)
  {
    if b != d {
      var k :| 0 <= k < |order| && order[k] == d;
      var m := DominatorIsEarlier(c, reachable, order, k, b);
    }
  }

  /** A slot's `alloc` is lowered before any store to or load from it. */
  lemma SlotIsLowered(c: Context, reachable: seq<BlockId>, order: seq<BlockId>, k: nat, i: nat, s: ValueId)
    requires AllocsFirst(c.blocks, order) && AreSlots(c.blocks, c.slots) && NoRepeats(order)
    requires k < |order| && order[k] in c.blocks && i <= |c.blocks[order[k]].instructions|
    requires s in c.slots && (StoredTo(c.blocks, order[k], i, s) || LoadedFrom(c.blocks, order[k], i, s))
    ensures LoweredBefore(c, order, k, i, s)
  {
    var b, j :| AllocatedAt(c.blocks, b, j, s);
    assert EmittedBefore(order, b, j, order[k], i);
    if b == order[k] {
      assert c.blocks[b].instructions[..i][j] == c.blocks[b].instructions[j];
    } else {
      var m, n :| 0 <= m < n < |order| && order[m] == b && order[n] == order[k];
      assert n == k;
      EarlierIsKnown(c.blocks, ParameterValues(c.current), order, m, k);
    }
  }

  lemma {:induction false} KnownFromEarlier(blocks: Blocks, parameters: Values, order: seq<BlockId>, k: nat, v: ValueId)
    returns (m: nat)
    requires k <= |order| && v in KnownBefore(blocks, parameters, order, k) && v !in parameters
    ensures m < k && order[m] in blocks && v in DefinedIn(blocks[order[m]].instructions)
    decreases k
  {
    var b := order[k - 1];
    if b in blocks && v in DefinedIn(blocks[b].instructions) {
      m := k - 1;
    } else {
      m := KnownFromEarlier(blocks, parameters, order, k - 1, v);
    }
  }

  /** What is lowered before a position and is a slot was allocated before it. */
  lemma LoweredSlotIsFirst(c: Context, order: seq<BlockId>, k: nat, j: nat, b: BlockId, i: nat, s: ValueId)
    requires SingleDefinitions(c.current, c.blocks) && AllocatedAt(c.blocks, b, i, s)
    requires NoRepeats(order) && forall d :: d in order ==> BlockReachable(c.blocks, d)
    requires k < |order| && order[k] in c.blocks && j <= |c.blocks[order[k]].instructions|
    requires LoweredBefore(c, order, k, j, s)
    ensures EmittedBefore(order, b, i, order[k], j)
  {
    assert Defines(c.blocks, b, i, s) && DefinedOnce(c.blocks, s);
    var before := c.blocks[order[k]].instructions[..j];
    if s in DefinedIn(before) {
      var n :| 0 <= n < |before| && before[n].Value? && before[n].result == s;
      assert order[k] in order;
      assert Defines(c.blocks, order[k], n, s);
    } else {
      var m := KnownFromEarlier(c.blocks, ParameterValues(c.current), order, k, s);
      assert order[m] in order;
      OneDefiningBlock(c, b, i, order[m], s);
    }
  }

  /** An instruction has code, and what it defines becomes what `full` says. */
  ghost predicate InstructionLowers(full: Natives, targets: Functions, instruction: Instruction) {
    && InstructionCode(full, targets, instruction).Ok?
    && (instruction.Value? ==>
          instruction.result in full
          && InstructionCode(full, targets, instruction).value.defined
             == Some((instruction.result, full[instruction.result])))
    && (!instruction.Value? ==> InstructionCode(full, targets, instruction).value.defined == None)
  }

  /** Only an integer constant outside the domain has passed its checks and has no code. */
  predicate Oversized(instruction: Instruction) {
    IsIntConstant(instruction) && !InI64(instruction.kind.value.literal)
  }

  /** The instruction at position `i` uses only what was known or defined before it. */
  ghost predicate PositionKnown(known: Values, block: BasicBlock, i: int) {
    0 <= i < |block.instructions| ==>
      forall u :: u in Uses(block.instructions[i]) ==> u in known + DefinedIn(block.instructions[..i])
  }

  /** The instruction at position `i` can be lowered there. */
  ghost predicate PositionFits(known: Values, block: BasicBlock, i: int) {
    PositionKnown(known, block, i) && (0 <= i < |block.instructions| ==> !Oversized(block.instructions[i]))
  }

  ghost predicate ExitKnown(known: Values, block: BasicBlock) {
    forall u :: u in ExitUses(block.terminator) ==> u in known + DefinedIn(block.instructions)
  }

  /** A block can be lowered, given the values known at its start. */
  ghost predicate BlockFits(known: Values, block: BasicBlock) {
    (forall i {:trigger PositionFits(known, block, i)} :: PositionFits(known, block, i)) && ExitKnown(known, block)
  }

  /** The blocks of an order can be lowered one after another. */
  ghost predicate OrderFits(blocks: Blocks, parameters: Values, order: seq<BlockId>) {
    forall k {:trigger order[k]} :: 0 <= k < |order| && order[k] in blocks ==>
      BlockFits(KnownBefore(blocks, parameters, order, k), blocks[order[k]])
  }

  /** Once every value is known, the instruction has code unless it is an oversized constant of a native type. */
  ghost predicate LowersIfItFits(full: Natives, targets: Functions, instruction: Instruction) {
    if Oversized(instruction) then ScalarOf(instruction.ty).Some? else InstructionLowers(full, targets, instruction)
  }

  ghost predicate BlockLowers(full: Natives, targets: Functions, ids: set<BlockId>, block: BasicBlock) {
    && block.id in ids && ExitCode(full, ids, block.terminator).Ok?
    && forall i {:trigger block.instructions[i]} :: 0 <= i < |block.instructions| ==>
         LowersIfItFits(full, targets, block.instructions[i])
  }

  ghost predicate OrderLowers(full: Natives, targets: Functions, ids: set<BlockId>, blocks: Blocks,
                              order: seq<BlockId>)
  {
    forall k {:trigger order[k]} :: 0 <= k < |order| ==>
      order[k] in blocks && blocks[order[k]].id == order[k] && BlockLowers(full, targets, ids, blocks[order[k]])
  }

  /** `natives` is the part of `full` that holds the known values. */
  ghost predicate Holding(natives: Natives, full: Natives, known: Values) {
    && (forall v :: v in natives ==> v in full && natives[v] == full[v])
    && (forall v :: v in natives <==> v in known && v in full)
  }

  /** The instruction at position `i` uses `u`, which is not known there. */
  ghost predicate UnknownAt(known: Values, block: BasicBlock, i: int, u: ValueId) {
    0 <= i < |block.instructions| && u in Uses(block.instructions[i])
    && u !in known + DefinedIn(block.instructions[..i])
  }

  /** Lowering stopped at a use of something not known yet, or at a constant outside the domain. */
  ghost predicate StoppedIn(known: Values, block: BasicBlock, error: LoweringError) {
    || (exists i, u :: UnknownAt(known, block, i, u) && error == UsedBeforeLowered(u))
    || (exists u :: error == UsedBeforeLowered(u) && u in ExitUses(block.terminator)
                    && u !in known + DefinedIn(block.instructions))
    || (exists i :: 0 <= i < |block.instructions| && Oversized(block.instructions[i])
                    && error == NotAnInteger(block.instructions[i].kind.value.literal))
  }

  lemma {:induction false} UnknownArgument(natives: Natives, full: Natives, known: Values, args: seq<ValueId>,
                                           u: ValueId)
    requires Holding(natives, full, known) && ArgumentRegisters(full, args).Ok?
    requires u in args && u !in known
    ensures ArgumentRegisters(natives, args).Err? && ArgumentRegisters(natives, args).error.UsedBeforeLowered?
    ensures var v := ArgumentRegisters(natives, args).error.value; v in args && v !in known
  {
    var last := |args| - 1;
    assert args == args[..last] + [args[last]];
    if w :| w in args[..last] && w !in known {
      UnknownArgument(natives, full, known, args[..last], w);
    } else {
      HoldingSame(natives, full, known, args[..last]);
      SameArguments(natives, full, args[..last]);
    }
  }

  lemma UnknownOperand(natives: Natives, full: Natives, known: Values, op: BinaryOp, result: ValueId, x: ValueId,
                       y: ValueId)
    requires Holding(natives, full, known) && BinaryCode(full, op, result, x, y).Ok?
    requires x !in known || y !in known
    ensures BinaryCode(natives, op, result, x, y) == Err(UsedBeforeLowered(if x !in known then x else y))
  {
    LookupsAgree(natives, full, known, [x, y]);
    assert [x, y][0] == x && [x, y][1] == y;
  }

  /** What has code once everything is known stops, when an operand is not known yet, at such an operand. */
  lemma UnknownUse(natives: Natives, full: Natives, known: Values, targets: Functions, instruction: Instruction,
                   u: ValueId)
    requires Holding(natives, full, known) && InstructionCode(full, targets, instruction).Ok?
    requires u in Uses(instruction) && u !in known
    ensures InstructionCode(natives, targets, instruction).Err?
    ensures InstructionCode(natives, targets, instruction).error.UsedBeforeLowered?
    ensures var v := InstructionCode(natives, targets, instruction).error.value; v in Uses(instruction) && v !in known
  {
    match instruction
    case Value(result, ty, Call(callee, _, args, _)) => UnknownArgument(natives, full, known, args, u);
    case Value(result, ty, Binary(op, x, y)) => UnknownOperand(natives, full, known, op, result, x, y);
    case _ => LookupsAgree(natives, full, known, Uses(instruction));
  }

  lemma LookupsAgree(natives: Natives, full: Natives, known: Values, uses: seq<ValueId>)
    requires Holding(natives, full, known)
    ensures forall i {:trigger uses[i]} :: 0 <= i < |uses| ==>
              Lookup(natives, uses[i])
              == if uses[i] in known then Lookup(full, uses[i]) else Err(UsedBeforeLowered(uses[i]))
  {
  }

  lemma UnknownExitUse(natives: Natives, full: Natives, known: Values, ids: set<BlockId>, terminator: Terminator,
                       u: ValueId)
    requires Holding(natives, full, known) && ExitCode(full, ids, terminator).Ok?
    requires u in ExitUses(terminator) && u !in known
    ensures ExitCode(natives, ids, terminator) == Err(UsedBeforeLowered(u))
  {
  }

  lemma HoldingSame(natives: Natives, full: Natives, known: Values, uses: seq<ValueId>)
    requires Holding(natives, full, known) && forall u :: u in uses ==> u in known
    ensures SameOn(natives, full, uses)
  {
    forall i | 0 <= i < |uses|
      ensures Lookup(natives, uses[i]) == Lookup(full, uses[i])
    {
      assert uses[i] in uses;
    }
  }

  /** Whether an instruction has code where it stands, and if not why. */
  lemma InstructionDecided(natives: Natives, full: Natives, targets: Functions, ids: set<BlockId>, known: Values,
                           block: BasicBlock, i: nat)
    requires BlockLowers(full, targets, ids, block) && i < |block.instructions|
    requires Holding(natives, full, known + DefinedIn(block.instructions[..i]))
    ensures var code := InstructionCode(natives, targets, block.instructions[i]);
            && (PositionFits(known, block, i) ==>
                  code == InstructionCode(full, targets, block.instructions[i])
                  && InstructionLowers(full, targets, block.instructions[i]))
            && (!PositionFits(known, block, i) ==> code.Err? && StoppedIn(known, block, code.error))
  {
    var instruction := block.instructions[i];
    assert LowersIfItFits(full, targets, instruction);
    if !Oversized(instruction) {
      if u :| u in Uses(instruction) && u !in known + DefinedIn(block.instructions[..i]) {
        UnknownUse(natives, full, known + DefinedIn(block.instructions[..i]), targets, instruction, u);
        assert UnknownAt(known, block, i, InstructionCode(natives, targets, instruction).error.value);
      } else {
        HoldingSame(natives, full, known + DefinedIn(block.instructions[..i]), Uses(instruction));
        SameInstructionCode(natives, full, targets, instruction);
      }
    }
  }

  lemma ExitDecided(natives: Natives, full: Natives, targets: Functions, ids: set<BlockId>, known: Values,
                    block: BasicBlock)
    requires BlockLowers(full, targets, ids, block)
    requires Holding(natives, full, known + DefinedIn(block.instructions))
    ensures var code := ExitCode(natives, ids, block.terminator);
            && (ExitKnown(known, block) ==> code == ExitCode(full, ids, block.terminator) && code.Ok?)
            && (!ExitKnown(known, block) ==> code.Err? && StoppedIn(known, block, code.error))
  {
    if u :| u in ExitUses(block.terminator) && u !in known + DefinedIn(block.instructions) {
      UnknownExitUse(natives, full, known + DefinedIn(block.instructions), ids, block.terminator, u);
    } else {
      HoldingSame(natives, full, known + DefinedIn(block.instructions), ExitUses(block.terminator));
      SameExitCode(natives, full, ids, block.terminator);
    }
  }

  /** Lowering a function stopped at a slot whose `alloc` it had not come to, or at a constant outside the domain. */
  ghost predicate Stopped(blocks: Blocks, error: LoweringError) {
    || (error.UsedBeforeLowered? && exists b, i :: AllocatedAt(blocks, b, i, error.value))
    || (error.NotAnInteger? && !InI64(error.literal)
        && exists b, i, instruction :: InstructionAt(blocks, b, i, instruction) && IsIntConstant(instruction)
                                       && instruction.kind.value.literal == error.literal)
  }

  lemma OnlySlotsAreLate(c: Context, reachable: seq<BlockId>, order: seq<BlockId>, k: nat, i: nat, u: ValueId)
    requires SingleDefinitions(c.current, c.blocks) && ContextOk(c) && Order(c, reachable, order)
    requires k < |order| && order[k] in c.blocks && i < |c.blocks[order[k]].instructions|
    requires u in Uses(c.blocks[order[k]].instructions[i]) && !LoweredBefore(c, order, k, i, u)
    ensures u in c.slots
  {
    OrderIsPlanned(c, reachable, order);
    assert order[k] in order && BlockOk(c, order[k]) && InstructionOk(c, order[k], i);
    var instruction := c.blocks[order[k]].instructions[i];
    var j :| 0 <= j < |Uses(instruction)| && Uses(instruction)[j] == u;
    UseIsLiveOrSlot(c, order[k], i, instruction, j);
    if u in LiveAt(c, order[k], i) {
      LiveIsLowered(c, reachable, order, k, i, u);
    }
  }

  lemma StoppedAtSlotOrConstant(c: Context, reachable: seq<BlockId>, order: seq<BlockId>, k: nat, error: LoweringError)
    requires SingleDefinitions(c.current, c.blocks) && AreSlots(c.blocks, c.slots) && ContextOk(c)
    requires Order(c, reachable, order) && k < |order| && order[k] in c.blocks
    requires StoppedIn(KnownBefore(c.blocks, ParameterValues(c.current), order, k), c.blocks[order[k]], error)
    ensures Stopped(c.blocks, error)
  {
    var block, known := c.blocks[order[k]], KnownBefore(c.blocks, ParameterValues(c.current), order, k);
    OrderIsPlanned(c, reachable, order);
    assert order[k] in order;
    ExitUsesLowered(c, reachable, order, k);
    if i, u :| UnknownAt(known, block, i, u) && error == UsedBeforeLowered(u) {
      OnlySlotsAreLate(c, reachable, order, k, i, u);
      SlotStops(c.blocks, c.slots, error);
    } else {
      ConstantStops(c.blocks, order[k], known, error);
    }
  }

  lemma SlotStops(blocks: Blocks, slots: Values, error: LoweringError)
    requires AreSlots(blocks, slots) && error.UsedBeforeLowered? && error.value in slots
    ensures Stopped(blocks, error)
  {
  }

  lemma ConstantStops(blocks: Blocks, b: BlockId, known: Values, error: LoweringError)
    requires BlockReachable(blocks, b) && b in blocks && StoppedIn(known, blocks[b], error)
    requires ExitKnown(known, blocks[b])
    requires forall i, u :: UnknownAt(known, blocks[b], i, u) ==> error != UsedBeforeLowered(u)
    ensures Stopped(blocks, error)
  {
    var i :| 0 <= i < |blocks[b].instructions| && Oversized(blocks[b].instructions[i])
             && error == NotAnInteger(blocks[b].instructions[i].kind.value.literal);
    assert InstructionAt(blocks, b, i, blocks[b].instructions[i]);
  }

  lemma UseIsLiveOrSlot(c: Context, b: BlockId, i: nat, instruction: Instruction, j: nat)
    requires BlockReachable(c.blocks, b) && b in c.blocks && i < |c.blocks[b].instructions|
    requires c.blocks[b].instructions[i] == instruction && InstructionOk(c, b, i)
    requires j < |Uses(instruction)|
    ensures var v := Uses(instruction)[j];
            v in c.types
            && (v in LiveAt(c, b, i) || (v in c.slots
                                         && (StoredTo(c.blocks, b, i, v) || LoadedFrom(c.blocks, b, i, v))))
  {
    match instruction
    case Value(_, _, Call(callee, typeArgs, args, evidence)) =>
      assert ArgumentFits(c, LiveAt(c, b, i), args[j], c.functions[callee].params[j]);
    case _ =>
  }

  lemma AcceptedInstructionLowers(functions: Functions, targets: Functions, f: Function, c: Context, b: BlockId, i: nat)
    requires Ready(functions, targets, f, c)
    requires BlockReachable(c.blocks, b) && b in c.blocks && i < |c.blocks[b].instructions|
    ensures LowersIfItFits(NativesOf(c), targets, c.blocks[b].instructions[i])
  {
    var instruction := c.blocks[b].instructions[i];
    var live := LiveAt(c, b, i);
    assert BlockOk(c, b) && InstructionOk(c, b, i) && InstructionAt(c.blocks, b, i, instruction);
    match instruction
    case Value(result, ty, kind) =>
      if !Oversized(instruction) {
        DeclaredHere(functions, f, c, b, i, result, ty, kind);
        ValueLowers(c, live, targets, result, ty, kind);
      }
    case Store(slot, value, mode) => StoreLowers(c, live, slot, value);
    case _ =>
  }

  lemma AcceptedExitLowers(c: Context, ids: set<BlockId>, b: BlockId)
    requires ContextOk(c) && BlockReachable(c.blocks, b) && b in c.blocks
    requires forall d :: BlockReachable(c.blocks, d) ==> d in ids
    ensures ExitCode(NativesOf(c), ids, c.blocks[b].terminator).Ok?
  {
    var n := |c.blocks[b].instructions|;
    assert BlockOk(c, b);
    forall target | target in TerminatorTargets(c.blocks[b].terminator) && target in c.blocks
      ensures target in ids
    {
      ReachThenEdge(Cfg(c.blocks), ENTRY_BLOCK, b, target);
    }
    ExitLowers(c, LiveAt(c, b, n), ids, c.blocks[b].terminator);
  }

  /** With every value known, an accepted function's instructions have code. */
  lemma AcceptedOrderLowers(functions: Functions, targets: Functions, f: Function, c: Context, reachable: seq<BlockId>,
                            order: seq<BlockId>)
    requires Ready(functions, targets, f, c) && Order(c, reachable, order)
    ensures OrderLowers(NativesOf(c), targets, Members(order), c.blocks, order)
  {
    OrderIsPlanned(c, reachable, order);
    forall k | 0 <= k < |order|
      ensures order[k] in c.blocks && c.blocks[order[k]].id == order[k]
      ensures BlockLowers(NativesOf(c), targets, Members(order), c.blocks[order[k]])
    {
      assert order[k] in order;
      ReachInGraph(Cfg(c.blocks), ENTRY_BLOCK, order[k]);
      BlockMapHolds(f.blocks, order[k]);
      var block := c.blocks[order[k]];
      forall i | 0 <= i < |block.instructions|
        ensures LowersIfItFits(NativesOf(c), targets, block.instructions[i])
      {
        AcceptedInstructionLowers(functions, targets, f, c, order[k], i);
      }
      AcceptedExitLowers(c, Members(order), order[k]);
    }
  }

  /** The order can be lowered exactly when the constants fit and every `alloc` comes before what uses its slot: the
      analyses put everything else before its uses. */
  lemma OrderFitsExactly(functions: Functions, targets: Functions, f: Function, c: Context, reachable: seq<BlockId>,
                         order: seq<BlockId>)
    requires Ready(functions, targets, f, c) && Order(c, reachable, order)
    ensures OrderFits(c.blocks, ParameterValues(f), order) <==> ConstantsFit(c.blocks) && AllocsFirst(c.blocks, order)
  {
    if ConstantsFit(c.blocks) && AllocsFirst(c.blocks, order) {
      forall k | 0 <= k < |order| && order[k] in c.blocks
        ensures BlockFits(KnownBefore(c.blocks, ParameterValues(f), order, k), c.blocks[order[k]])
      {
        AcceptedBlockFits(c, reachable, order, k);
      }
    }
    if OrderFits(c.blocks, ParameterValues(f), order) {
      FittingConstants(c, reachable, order);
      FittingAllocs(c, reachable, order);
    }
  }

  lemma AcceptedBlockFits(c: Context, reachable: seq<BlockId>, order: seq<BlockId>, k: nat)
    requires SingleDefinitions(c.current, c.blocks) && AllocsFirst(c.blocks, order) && AreSlots(c.blocks, c.slots)
    requires ConstantsFit(c.blocks) && ContextOk(c) && Order(c, reachable, order)
    requires k < |order| && order[k] in c.blocks
    ensures BlockFits(KnownBefore(c.blocks, ParameterValues(c.current), order, k), c.blocks[order[k]])
  {
    var block, known := c.blocks[order[k]], KnownBefore(c.blocks, ParameterValues(c.current), order, k);
    OrderIsPlanned(c, reachable, order);
    assert order[k] in order;
    forall i
      ensures PositionFits(known, block, i)
    {
      if 0 <= i < |block.instructions| {
        UsesLowered(c, reachable, order, k, i);
        assert InstructionAt(c.blocks, order[k], i, block.instructions[i]);
      }
    }
    ExitUsesLowered(c, reachable, order, k);
  }

  lemma FittingConstants(c: Context, reachable: seq<BlockId>, order: seq<BlockId>)
    requires ContextOk(c) && Order(c, reachable, order) && OrderFits(c.blocks, ParameterValues(c.current), order)
    ensures ConstantsFit(c.blocks)
  {
    OrderIsPlanned(c, reachable, order);
    forall b, i, instruction | InstructionAt(c.blocks, b, i, instruction) && IsIntConstant(instruction)
      ensures InI64(instruction.kind.value.literal)
    {
      assert b in order;
      var k :| 0 <= k < |order| && order[k] == b;
      assert PositionFits(KnownBefore(c.blocks, ParameterValues(c.current), order, k), c.blocks[order[k]], i);
    }
  }

  lemma FittingAllocs(c: Context, reachable: seq<BlockId>, order: seq<BlockId>)
    requires SingleDefinitions(c.current, c.blocks)
    requires ContextOk(c) && Order(c, reachable, order) && OrderFits(c.blocks, ParameterValues(c.current), order)
    ensures AllocsFirst(c.blocks, order)
  {
    OrderIsPlanned(c, reachable, order);
    FittingUses(c, order);
  }

  lemma FittingUses(c: Context, order: seq<BlockId>)
    requires SingleDefinitions(c.current, c.blocks) && OrderFits(c.blocks, ParameterValues(c.current), order)
    requires NoRepeats(order) && forall e :: e in order <==> BlockReachable(c.blocks, e)
    ensures AllocsFirst(c.blocks, order)
  {
    forall b, i, s, d, j | AllocatedAt(c.blocks, b, i, s)
                           && (StoredTo(c.blocks, d, j, s) || LoadedFrom(c.blocks, d, j, s))
      ensures EmittedBefore(order, b, i, d, j)
    {
      FittingUse(c, order, b, i, s, d, j);
    }
  }

  lemma FittingUse(c: Context, order: seq<BlockId>, b: BlockId, i: nat, s: ValueId, d: BlockId, j: nat)
    requires SingleDefinitions(c.current, c.blocks) && OrderFits(c.blocks, ParameterValues(c.current), order)
    requires NoRepeats(order) && forall e :: e in order <==> BlockReachable(c.blocks, e)
    requires AllocatedAt(c.blocks, b, i, s) && (StoredTo(c.blocks, d, j, s) || LoadedFrom(c.blocks, d, j, s))
    ensures EmittedBefore(order, b, i, d, j)
  {
    assert d in order;
    var k :| 0 <= k < |order| && order[k] == d;
    FittingPosition(c, order, k, j);
    assert s in Uses(c.blocks[d].instructions[j]);
    LoweredSlotIsFirst(c, order, k, j, b, i, s);
  }

  lemma FittingPosition(c: Context, order: seq<BlockId>, k: nat, j: nat)
    requires OrderFits(c.blocks, ParameterValues(c.current), order)
    requires k < |order| && order[k] in c.blocks && j < |c.blocks[order[k]].instructions|
    ensures forall u :: u in Uses(c.blocks[order[k]].instructions[j]) ==> LoweredBefore(c, order, k, j, u)
  {
    assert PositionFits(KnownBefore(c.blocks, ParameterValues(c.current), order, k), c.blocks[order[k]], j);
  }

  lemma UsesLowered(c: Context, reachable: seq<BlockId>, order: seq<BlockId>, k: nat, i: nat)
    requires SingleDefinitions(c.current, c.blocks) && AllocsFirst(c.blocks, order) && AreSlots(c.blocks, c.slots)
    requires ContextOk(c) && Order(c, reachable, order)
    requires k < |order| && order[k] in c.blocks && i < |c.blocks[order[k]].instructions|
    ensures forall u :: u in Uses(c.blocks[order[k]].instructions[i]) ==> LoweredBefore(c, order, k, i, u)
  {
    var instruction := c.blocks[order[k]].instructions[i];
    OrderIsPlanned(c, reachable, order);
    assert BlockReachable(c.blocks, order[k]) && BlockOk(c, order[k]) && InstructionOk(c, order[k], i);
    forall u | u in Uses(instruction)
      ensures LoweredBefore(c, order, k, i, u)
    {
      var j :| 0 <= j < |Uses(instruction)| && Uses(instruction)[j] == u;
      UseIsLiveOrSlot(c, order[k], i, instruction, j);
      if u in LiveAt(c, order[k], i) {
        LiveIsLowered(c, reachable, order, k, i, u);
      } else {
        SlotIsLowered(c, reachable, order, k, i, u);
      }
    }
  }

  lemma ExitUsesLowered(c: Context, reachable: seq<BlockId>, order: seq<BlockId>, k: nat)
    requires SingleDefinitions(c.current, c.blocks) && ContextOk(c) && Order(c, reachable, order)
    requires k < |order| && order[k] in c.blocks
    ensures forall u :: u in ExitUses(c.blocks[order[k]].terminator) ==>
              u in KnownBefore(c.blocks, ParameterValues(c.current), order, k)
                + DefinedIn(c.blocks[order[k]].instructions)
  {
    var instructions := c.blocks[order[k]].instructions;
    assert instructions[..|instructions|] == instructions;
    OrderIsPlanned(c, reachable, order);
    assert BlockOk(c, order[k]);
    forall u | u in ExitUses(c.blocks[order[k]].terminator)
      ensures LoweredBefore(c, order, k, |instructions|, u)
    {
      LiveIsLowered(c, reachable, order, k, |instructions|, u);
    }
  }

  // What one lowered function is.

  ghost predicate IsLoweredBody(c: Context, targets: Functions, ids: set<BlockId>, code: map<Label, BlockCode>) {
    && Prologue in code && code[Prologue] == BlockCode([], Jump(Main(ENTRY_BLOCK)))
    && forall b {:trigger PlannedBlockEmitted(c, targets, ids, code, b)} ::
       PlannedBlockEmitted(c, targets, ids, code, b)
  }

  ghost predicate PlannedBlockEmitted(c: Context, targets: Functions, ids: set<BlockId>, code: map<Label, BlockCode>,
                                      b: BlockId)
  {
    BlockReachable(c.blocks, b) && b in c.blocks ==> CodeEmitted(c, targets, ids, code, b)
  }

  ghost predicate CodeEmitted(c: Context, targets: Functions, ids: set<BlockId>, code: map<Label, BlockCode>,
                              b: BlockId)
    requires b in c.blocks
  {
    BlockEmitted(code, b, StepsOf(NativesOf(c), targets, c.blocks[b]), ExitOf(NativesOf(c), ids, c.blocks[b]))
  }

  /** Only a value instruction has a guard, and the guard is named after it. */
  lemma GuardIsResult(natives: Natives, targets: Functions, block: BasicBlock, i: nat)
    requires i < |block.instructions| && StepsOf(natives, targets, block)[i].guard.Some?
    ensures block.instructions[i].Value?
    ensures StepsOf(natives, targets, block)[i].guard.value.value == block.instructions[i].result
  {
  }

  lemma GuardsDistinct(c: Context, natives: Natives, targets: Functions, b: BlockId)
    requires SingleDefinitions(c.current, c.blocks) && BlockReachable(c.blocks, b) && b in c.blocks
    ensures DistinctGuards(StepsOf(natives, targets, c.blocks[b]))
  {
    var steps := StepsOf(natives, targets, c.blocks[b]);
    forall i, j | 0 <= i < j < |steps| && steps[i].guard.Some? && steps[j].guard.Some?
      ensures steps[i].guard.value.value != steps[j].guard.value.value
    {
      GuardIsResult(natives, targets, c.blocks[b], i);
      GuardIsResult(natives, targets, c.blocks[b], j);
      assert Defines(c.blocks, b, i, steps[i].guard.value.value);
      assert Defines(c.blocks, b, j, steps[j].guard.value.value);
      assert DefinedOnce(c.blocks, steps[i].guard.value.value);
    }
  }

  /** Filling block `d` creates none of the labels block `b` needs. */
  lemma LabelsApart(c: Context, natives: Natives, targets: Functions, b: BlockId, i: nat, d: BlockId)
    requires SingleDefinitions(c.current, c.blocks) && b != d
    requires BlockReachable(c.blocks, b) && b in c.blocks && i < |c.blocks[b].instructions|
    requires BlockReachable(c.blocks, d) && d in c.blocks
    requires StepsOf(natives, targets, c.blocks[b])[i].guard.Some?
    ensures var v := StepsOf(natives, targets, c.blocks[b])[i].guard.value.value;
            !CreatedFrom(StepsOf(natives, targets, c.blocks[d]), 0, Failure(v))
            && !CreatedFrom(StepsOf(natives, targets, c.blocks[d]), 0, Continued(v))
  {
    var v := StepsOf(natives, targets, c.blocks[b])[i].guard.value.value;
    var steps := StepsOf(natives, targets, c.blocks[d]);
    GuardIsResult(natives, targets, c.blocks[b], i);
    assert Defines(c.blocks, b, i, v) && DefinedOnce(c.blocks, v);
    forall j | 0 <= j < |steps| && steps[j].guard.Some?
      ensures steps[j].guard.value.value != v
    {
      GuardIsResult(natives, targets, c.blocks[d], j);
      assert Defines(c.blocks, d, j, steps[j].guard.value.value);
    }
  }

  /** `after` is `before` apart from the labels filling block `d` creates. */
  ghost predicate OnlyFills(c: Context, natives: Natives, targets: Functions, d: BlockId, before: map<Label, BlockCode>,
                            after: map<Label, BlockCode>)
    requires d in c.blocks
  {
    forall target {:trigger target in after} ::
      target != Main(d) && !CreatedFrom(StepsOf(natives, targets, c.blocks[d]), 0, target) ==>
        (target in after <==> target in before) && (target in after ==> after[target] == before[target])
  }

  /** Blocks filled before stay as they are while another one is filled. */
  lemma EarlierBlockStays(c: Context, targets: Functions, ids: set<BlockId>, b: BlockId, d: BlockId,
                          before: map<Label, BlockCode>, after: map<Label, BlockCode>)
    requires SingleDefinitions(c.current, c.blocks) && b != d
    requires BlockReachable(c.blocks, b) && b in c.blocks && BlockReachable(c.blocks, d) && d in c.blocks
    requires OnlyFills(c, NativesOf(c), targets, d, before, after)
    requires CodeEmitted(c, targets, ids, before, b)
    ensures CodeEmitted(c, targets, ids, after, b)
  {
    var natives := NativesOf(c);
    var steps, exit := StepsOf(natives, targets, c.blocks[b]), ExitOf(natives, ids, c.blocks[b]);
    assert !CreatedFrom(StepsOf(natives, targets, c.blocks[d]), 0, Main(b));
    forall i
      ensures GuardEmitted(after, steps, exit, i)
    {
      assert GuardEmitted(before, steps, exit, i);
      if 0 <= i < |steps| && steps[i].guard.Some? {
        LabelsApart(c, natives, targets, b, i, d);
      }
    }
  }

  /** Filling a block whole gives it its code and touches nothing else. */
  lemma BlockFilled(c: Context, targets: Functions, ids: set<BlockId>, d: BlockId, before: map<Label, BlockCode>,
                    after: map<Label, BlockCode>)
    requires SingleDefinitions(c.current, c.blocks) && BlockReachable(c.blocks, d) && d in c.blocks
    requires after == Emit(Builder(before, Main(d), []), StepsOf(NativesOf(c), targets, c.blocks[d]),
                           ExitOf(NativesOf(c), ids, c.blocks[d]), 0)
    ensures CodeEmitted(c, targets, ids, after, d)
    ensures OnlyFills(c, NativesOf(c), targets, d, before, after)
  {
    var steps, exit := StepsOf(NativesOf(c), targets, c.blocks[d]), ExitOf(NativesOf(c), ids, c.blocks[d]);
    GuardsDistinct(c, NativesOf(c), targets, d);
    EmitFills(Builder(before, Main(d), []), steps, exit, 0);
    var rest := CodeFrom(steps, exit, 0);
    assert [] + rest.insts == rest.insts;
    forall i
      ensures GuardEmitted(after, steps, exit, i)
    {
      if 0 <= i { assert GuardEmitted(after, steps, exit, i); }
    }
  }

  /** The argument registers of a function, one per parameter that is not `unit`. */
  function ArgumentsOf(params: seq<Param>): seq<Register> {
    if params == [] then []
    else
      var last := |params| - 1;
      ArgumentsOf(params[..last])
        + (if ScalarOf(params[last].ty) == Some(UnitScalar) then [] else [Reg(params[last].value, 0)])
  }

  lemma CallIsEdge(functions: Functions, id: ItemId, b: BlockId, i: nat, instruction: Instruction)
    requires id in functions && BlocksKeyed(functions[id])
    requires InstructionAt(BlockMap(functions[id].blocks), b, i, instruction)
    requires instruction.Value? && instruction.kind.Call? && instruction.kind.callee in functions
    ensures Edge(CallGraph(functions), id, instruction.kind.callee)
  {
    var blocks := BlockMap(functions[id].blocks);
    assert instruction in blocks[b].instructions;
    CalleeIsCalled(blocks, ReachableSeq(blocks), b, instruction.kind.callee);
  }

  /** The functions the plan names. */
  function Planned(functions: Functions, ids: seq<ItemId>): Functions {
    map id | id in ids && id in functions :: functions[id]
  }

  /** A function of an accepted program is ready to be lowered. */
  lemma AcceptedIsReady(m: Module, build: Build, entry: ItemId, plan: NativePlan, id: ItemId)
    requires InSubset(m, build, entry) && IsPlan(m, entry, plan) && id in plan.functions
    ensures var functions := FunctionMap(m.functions);
            && id in functions && BodyOk(functions, functions[id])
            && Ready(functions, Planned(functions, plan.functions), functions[id], ContextOf(functions, functions[id]))
  {
    var functions := FunctionMap(m.functions);
    PlannedIsReached(m, entry, plan, id);
    SubsetFunction(m, build, entry, id);
    FunctionOkParts(functions, build, id, id == entry);
    CalleesArePlanned(m, entry, plan, id);
  }

  lemma CalleesArePlanned(m: Module, entry: ItemId, plan: NativePlan, id: ItemId)
    requires IsPlan(m, entry, plan) && id in plan.functions
    requires id in FunctionMap(m.functions) && BodyOk(FunctionMap(m.functions), FunctionMap(m.functions)[id])
    ensures var functions := FunctionMap(m.functions);
            CalleesPlanned(ContextOf(functions, functions[id]), Planned(functions, plan.functions))
  {
    var functions := FunctionMap(m.functions);
    var c := ContextOf(functions, functions[id]);
    forall b, i, instruction | InstructionAt(c.blocks, b, i, instruction)
      ensures CalleePlanned(c, Planned(functions, plan.functions), instruction)
    {
      if instruction.Value? && instruction.kind.Call? && instruction.kind.callee in functions {
        CallIsEdge(functions, id, b, i, instruction);
        ReachThenEdge(CallGraph(functions), entry, id, instruction.kind.callee);
      }
    }
  }

  ghost predicate IsLoweredFunction(functions: Functions, targets: Functions, reachable: seq<BlockId>, f: Function,
                                    target: TargetFunction)
  {
    && SignatureOf(f) == Ok(target.signature)
    && target.arguments == ArgumentsOf(f.params)
    && BodyOk(functions, f)
    && IsLoweredBody(ContextOf(functions, f), targets, Members(reachable), target.code)
  }

  ghost predicate FunctionLowered(functions: Functions, plan: NativePlan, targets: Functions, id: ItemId,
                                  target: TargetFunction) {
    && id in functions && id in plan.reachableBlocks
    && IsLoweredFunction(functions, targets, plan.reachableBlocks[id], functions[id], target)
  }

  /** Every planned function, lowered. */
  ghost predicate IsLoweredProgram(functions: Functions, plan: NativePlan, program: Program) {
    && (forall id :: id in program <==> id in plan.functions)
    && (forall id :: id in program ==>
          FunctionLowered(functions, plan, Planned(functions, plan.functions), id, program[id]))
  }
}
