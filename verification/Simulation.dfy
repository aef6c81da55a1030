/** Lowering preserves meaning: the target code of an accepted program does, step for step, what its NIR does. */
module Simulation {
  import opened Wrappers
  import opened Numeric
  import opened Nir
  import opened Graphs
  import opened Dataflow
  import opened NirSemantics
  import opened Capability
  import opened TypeSafety
  import opened TargetIr
  import opened Lowering
  import opened Bodies
  import opened Fragments

  /** A value that is no slot is in its register, unless it is `unit`. */
  ghost predicate RegisterOk(c: Context, frame: Frame, locals: Locals, v: ValueId) {
    v in frame.values && v !in c.slots ==> HoldsWord(locals, Reg(v, 0), WordOf(frame.values[v]))
  }

  /** A slot stored since its last `alloc` is in its variable. */
  ghost predicate VariableOk(frame: Frame, locals: Locals, s: ValueId) {
    s in frame.stored && s in frame.values && WordOf(frame.values[s]).Some? ==>
      s in locals.variables && locals.variables[s] == WordOf(frame.values[s]).value
  }

  ghost predicate LocalsMatch(c: Context, frame: Frame, locals: Locals) {
    && (forall v {:trigger RegisterOk(c, frame, locals, v)} :: RegisterOk(c, frame, locals, v))
    && (forall s {:trigger VariableOk(frame, locals, s)} :: VariableOk(frame, locals, s))
  }

  lemma OperandMatches(c: Context, frame: Frame, locals: Locals, v: ValueId)
    requires Holds(c, frame) && LocalsMatch(c, frame, locals)
    requires Operand(c, LiveAt(c, frame.block, frame.pc), v).Ok?
    ensures v in frame.values
    ensures OperandHeld(locals, v, Operand(c, LiveAt(c, frame.block, frame.pc), v).value, frame.values[v])
    ensures Lookup(NativesOf(c), v) == Ok(Held(Operand(c, LiveAt(c, frame.block, frame.pc), v).value, Reg(v, 0)))
  {
    OperandHolds(c, frame, v);
    OperandNative(c, LiveAt(c, frame.block, frame.pc), v);
    assert RegisterOk(c, frame, locals, v);
  }

  /** The condition code a comparison of one scalar is lowered to. */
  function ConditionOf(op: BinaryOp, scalar: Scalar): IntCC {
    match op
    case Eq => Equal
    case Ne => NotEqual
    case Lt => if scalar == IntScalar then SignedLess else UnsignedLess
    case Le => if scalar == IntScalar then SignedLessOrEqual else UnsignedLessOrEqual
    case Gt => if scalar == IntScalar then SignedGreater else UnsignedGreater
    case _ => if scalar == IntScalar then SignedGreaterOrEqual else UnsignedGreaterOrEqual
  }

  predicate IsComparison(op: BinaryOp) {
    op in {Eq, Ne} || IsOrdered(op)
  }

  lemma ComparisonRuns(natives: Natives, op: BinaryOp, scalar: Scalar, v: ValueId, a: ValueId, b: ValueId, x: Datum,
                       y: Datum, s: Locals)
    requires IsComparison(op) && !(IsOrdered(op) && scalar == UnitScalar)
    requires Lookup(natives, a) == Ok(Held(scalar, Reg(a, 0))) && Lookup(natives, b) == Ok(Held(scalar, Reg(b, 0)))
    requires OperandHeld(s, a, scalar, x) && OperandHeld(s, b, scalar, y)
    ensures BinaryCode(natives, op, v, a, b).Ok?
    ensures Runs(BinaryCode(natives, op, v, a, b).value, s, v, EvaluateBinary(op, x, y))
  {
    if scalar == UnitScalar {
      ConstantRuns(v, Flag(op == Eq), NativeBool(Reg(v, 0)), s, BoolDatum(op == Eq));
    } else {
      IcmpRuns(ConditionOf(op, scalar), op, scalar, v, a, b, x, y, s);
    }
  }

  /** The bitwise operation, or the checked one, an integer operator is lowered to. */
  lemma ArithmeticRuns(natives: Natives, op: BinaryOp, v: ValueId, a: ValueId, b: ValueId, x: Datum, y: Datum,
                       s: Locals)
    requires op in {Add, Sub, Mul} && a != v && b != v
    requires Lookup(natives, a) == Ok(NativeInt(Reg(a, 0))) && Lookup(natives, b) == Ok(NativeInt(Reg(b, 0)))
    requires OperandHeld(s, a, IntScalar, x) && OperandHeld(s, b, IntScalar, y)
    ensures BinaryCode(natives, op, v, a, b).Ok?
    ensures Runs(BinaryCode(natives, op, v, a, b).value, s, v, EvaluateBinary(op, x, y))
  {
    match op
    case Add => CheckedRuns(AddOp, v, Reg(a, 0), Reg(b, 0), x.n, y.n, s);
    case Sub => CheckedRuns(SubOp, v, Reg(a, 0), Reg(b, 0), x.n, y.n, s);
    case Mul => CheckedRuns(MulOp, v, Reg(a, 0), Reg(b, 0), x.n, y.n, s);
  }

  lemma BitwiseRuns(natives: Natives, op: BinaryOp, v: ValueId, a: ValueId, b: ValueId, x: Datum, y: Datum,
                    s: Locals)
    requires op in {BitAnd, BitOr, BitXor} && a != v && b != v
    requires Lookup(natives, a) == Ok(NativeInt(Reg(a, 0))) && Lookup(natives, b) == Ok(NativeInt(Reg(b, 0)))
    requires OperandHeld(s, a, IntScalar, x) && OperandHeld(s, b, IntScalar, y)
    ensures BinaryCode(natives, op, v, a, b).Ok?
    ensures Runs(BinaryCode(natives, op, v, a, b).value, s, v, EvaluateBinary(op, x, y))
  {
    match op
    case BitAnd => BitsRun(And, v, a, b, x.n, y.n, s);
    case BitOr => BitsRun(Or, v, a, b, x.n, y.n, s);
    case BitXor => BitsRun(Xor, v, a, b, x.n, y.n, s);
  }

  lemma IntegerRuns(natives: Natives, op: BinaryOp, v: ValueId, a: ValueId, b: ValueId, x: Datum, y: Datum,
                    s: Locals)
    requires IsInteger(op) && a != v && b != v
    requires Lookup(natives, a) == Ok(NativeInt(Reg(a, 0))) && Lookup(natives, b) == Ok(NativeInt(Reg(b, 0)))
    requires OperandHeld(s, a, IntScalar, x) && OperandHeld(s, b, IntScalar, y)
    ensures BinaryCode(natives, op, v, a, b).Ok?
    ensures Runs(BinaryCode(natives, op, v, a, b).value, s, v, EvaluateBinary(op, x, y))
  {
    if op in {Add, Sub, Mul} {
      ArithmeticRuns(natives, op, v, a, b, x, y, s);
    } else {
      BitwiseRuns(natives, op, v, a, b, x, y, s);
    }
  }

  lemma BinaryRuns(c: Context, frame: Frame, locals: Locals, result: ValueId, ty: Ty, op: BinaryOp, a: ValueId,
                   b: ValueId)
    requires Holds(c, frame) && LocalsMatch(c, frame, locals) && a != result && b != result
    requires CheckValue(c, LiveAt(c, frame.block, frame.pc), ty, Binary(op, a, b)) == None
    ensures BinaryCode(NativesOf(c), op, result, a, b).Ok?
    ensures Runs(BinaryCode(NativesOf(c), op, result, a, b).value, locals, result,
                 Evaluate(frame.values, Binary(op, a, b)))
  {
    var live := LiveAt(c, frame.block, frame.pc);
    OperandMatches(c, frame, locals, a);
    OperandMatches(c, frame, locals, b);
    var x, y := frame.values[a], frame.values[b];
    if IsInteger(op) {
      IntegerRuns(NativesOf(c), op, result, a, b, x, y, locals);
    } else {
      ComparisonRuns(NativesOf(c), op, Operand(c, live, a).value, result, a, b, x, y, locals);
    }
  }

  lemma LoadRuns(c: Context, frame: Frame, locals: Locals, result: ValueId, ty: Ty, slot: ValueId)
    requires Holds(c, frame) && LocalsMatch(c, frame, locals)
    requires CheckValue(c, LiveAt(c, frame.block, frame.pc), ty, Load(slot)) == None
    requires slot in frame.stored
    ensures LoadCode(NativesOf(c), result, slot).Ok?
    ensures Runs(LoadCode(NativesOf(c), result, slot).value, locals, result, Evaluate(frame.values, Load(slot)))
  {
    var scalar := ScalarOf(ty).value;
    SlotNative(c, slot, scalar);
    assert ValueOk(c, frame, slot) && VariableOk(frame, locals, slot);
    if scalar == UnitScalar {
      ExecuteNone(locals);
    } else {
      LoadedRuns(locals, result, slot, scalar, frame.values[slot]);
    }
  }

  lemma LoadedRuns(locals: Locals, result: ValueId, slot: ValueId, scalar: Scalar, d: Datum)
    requires slot in locals.variables && WordOf(d) == Some(locals.variables[slot])
    ensures Runs(Fragment(Held(scalar, Reg(result, 0)), [UseVar(Reg(result, 0), slot)], None), locals, result,
                 Computed(d))
  {
    ExecuteOne(UseVar(Reg(result, 0), slot), locals);
  }

  lemma ConstantCodeRuns(locals: Locals, result: ValueId, value: Const)
    requires !value.OtherConst? && (value.IntConst? ==> InI64(value.literal))
    ensures ConstantCode(result, value).Ok?
    ensures Runs(ConstantCode(result, value).value, locals, result, EvaluateConstant(value))
  {
    match value
    case IntConst(literal) => ConstantRuns(result, I64(literal), NativeInt(Reg(result, 0)), locals, IntDatum(literal));
    case BoolConst(flag) => ConstantRuns(result, Flag(flag), NativeBool(Reg(result, 0)), locals, BoolDatum(flag));
    case UnitConst => ExecuteNone(locals);
  }

  lemma NegRuns(c: Context, frame: Frame, locals: Locals, result: ValueId, ty: Ty, a: ValueId)
    requires Holds(c, frame) && LocalsMatch(c, frame, locals) && result !in LiveAt(c, frame.block, frame.pc)
    requires CheckValue(c, LiveAt(c, frame.block, frame.pc), ty, Neg(a)) == None
    ensures CheckedCode(NativesOf(c), NegOp, result, a, a).Ok?
    ensures Runs(CheckedCode(NativesOf(c), NegOp, result, a, a).value, locals, result, Evaluate(frame.values, Neg(a)))
  {
    OperandMatches(c, frame, locals, a);
    CheckedRuns(NegOp, result, Reg(a, 0), Reg(a, 0), frame.values[a].n, frame.values[a].n, locals);
  }

  lemma InvertRuns(c: Context, frame: Frame, locals: Locals, result: ValueId, ty: Ty, a: ValueId)
    requires Holds(c, frame) && LocalsMatch(c, frame, locals) && result !in LiveAt(c, frame.block, frame.pc)
    requires CheckValue(c, LiveAt(c, frame.block, frame.pc), ty, Not(a)) == None
    ensures NotCode(NativesOf(c), result, a).Ok?
    ensures Runs(NotCode(NativesOf(c), result, a).value, locals, result, Evaluate(frame.values, Not(a)))
  {
    OperandMatches(c, frame, locals, a);
    NotRuns(result, a, Operand(c, LiveAt(c, frame.block, frame.pc), a).value, frame.values[a], NativesOf(c), locals);
  }

  /** The code of a checked value computes what evaluating it computes, or raises the flag of the same overflow. */
  lemma ValueRuns(c: Context, targets: Functions, frame: Frame, locals: Locals, result: ValueId, ty: Ty,
                  kind: ValueKind)
    requires Holds(c, frame) && LocalsMatch(c, frame, locals)
    requires !kind.Alloc? && !kind.Call? && result !in LiveAt(c, frame.block, frame.pc)
    requires CheckValue(c, LiveAt(c, frame.block, frame.pc), ty, kind) == None
    requires kind.Load? ==> kind.slot in frame.stored
    requires kind.Constant? && kind.value.IntConst? ==> InI64(kind.value.literal)
    ensures ValueCode(NativesOf(c), targets, result, ty, kind).Ok?
    ensures Runs(ValueCode(NativesOf(c), targets, result, ty, kind).value, locals, result, Evaluate(frame.values, kind))
  {
    match kind
    case Constant(value) => ConstantCodeRuns(locals, result, value);
    case Load(slot) => LoadRuns(c, frame, locals, result, ty, slot);
    case Binary(op, a, b) => BinaryRuns(c, frame, locals, result, ty, op, a, b);
    case Neg(a) => NegRuns(c, frame, locals, result, ty, a);
    case Not(a) => InvertRuns(c, frame, locals, result, ty, a);
    case _ =>
  }

  /** Registers and variables follow a bound value. */
  lemma BindMatches(c: Context, frame: Frame, before: Locals, after: Locals, result: ValueId, d: Datum)
    requires LocalsMatch(c, frame, before) && OnlyTouches(before, after, result) && result !in c.slots
    requires HoldsWord(after, Reg(result, 0), WordOf(d)) && frame.stored <= c.slots
    ensures LocalsMatch(c, Bind(frame, result, d), after)
  {
    var next := Bind(frame, result, d);
    forall v
      ensures RegisterOk(c, next, after, v)
    {
      assert RegisterOk(c, frame, before, v);
    }
    forall s
      ensures VariableOk(next, after, s)
    {
      assert VariableOk(frame, before, s);
    }
  }

  lemma AllocMatches(c: Context, frame: Frame, locals: Locals, result: ValueId)
    requires LocalsMatch(c, frame, locals) && result in c.slots
    ensures LocalsMatch(c, Bind(frame, result, UnitDatum).(stored := frame.stored - {result}), locals)
  {
    var next := Bind(frame, result, UnitDatum).(stored := frame.stored - {result});
    forall v
      ensures RegisterOk(c, next, locals, v)
    {
      assert RegisterOk(c, frame, locals, v);
    }
    forall s
      ensures VariableOk(next, locals, s)
    {
      assert VariableOk(frame, locals, s);
    }
  }

  lemma StoreRuns(c: Context, frame: Frame, locals: Locals, slot: ValueId, value: ValueId) returns (after: Locals)
    requires Holds(c, frame) && LocalsMatch(c, frame, locals)
    requires CheckInstruction(c, LiveAt(c, frame.block, frame.pc), Store(slot, value, Observe)) == None
    ensures value in frame.values
    ensures StoreCode(NativesOf(c), slot, value).Ok?
    ensures ExecuteAll(StoreCode(NativesOf(c), slot, value).value, locals) == Some(after)
    ensures LocalsMatch(c, Bind(frame, slot, frame.values[value]).(stored := frame.stored + {slot}), after)
  {
    OperandMatches(c, frame, locals, value);
    var scalar := Operand(c, LiveAt(c, frame.block, frame.pc), value).value;
    SlotNative(c, slot, scalar);
    after := StoredRuns(NativesOf(c), locals, slot, value, scalar, frame.values[value]);
    StoreMatches(c, frame, locals, after, slot, frame.values[value]);
  }

  lemma StoredRuns(natives: Natives, locals: Locals, slot: ValueId, value: ValueId, scalar: Scalar, d: Datum)
    returns (after: Locals)
    requires Lookup(natives, slot) == Ok(NativeFor(true, scalar, slot))
    requires Lookup(natives, value) == Ok(Held(scalar, Reg(value, 0))) && OperandHeld(locals, value, scalar, d)
    ensures StoreCode(natives, slot, value).Ok?
    ensures ExecuteAll(StoreCode(natives, slot, value).value, locals) == Some(after)
    ensures after.registers == locals.registers
    ensures if WordOf(d).Some? then after.variables == locals.variables[slot := WordOf(d).value] else after == locals
  {
    if scalar == UnitScalar {
      after := locals;
      ExecuteNone(locals);
    } else {
      after := locals.(variables := locals.variables[slot := locals.registers[Reg(value, 0)]]);
      ExecuteOne(DefVar(slot, Reg(value, 0)), locals);
    }
  }

  lemma StoreMatches(c: Context, frame: Frame, before: Locals, after: Locals, slot: ValueId, d: Datum)
    requires LocalsMatch(c, frame, before) && slot in c.slots
    requires after.registers == before.registers
    requires if WordOf(d).Some? then after.variables == before.variables[slot := WordOf(d).value] else after == before
    ensures LocalsMatch(c, Bind(frame, slot, d).(stored := frame.stored + {slot}), after)
  {
    var next := Bind(frame, slot, d).(stored := frame.stored + {slot});
    forall v
      ensures RegisterOk(c, next, after, v)
    {
      assert RegisterOk(c, frame, before, v);
    }
    forall s
      ensures VariableOk(next, after, s)
    {
      assert VariableOk(frame, before, s);
    }
  }

  // One step of a block's code, whatever the block.

  /** After the instructions of one step, control is at the next one, or the flagged operator has failed. */
  lemma StepRuns(program: Program, callers: seq<TargetFrame>, top: TargetFrame, steps: seq<Lowering.Step>, exit: Exit,
                 pc: nat, after: Locals) returns (k: nat)
    requires pc < |steps| && top.code == CodeFrom(steps, exit, pc)
    requires ExecuteAll(steps[pc].insts, top.locals) == Some(after)
    requires top.callee in program && GuardEmitted(program[top.callee].code, steps, exit, pc)
    requires steps[pc].guard.Some? ==> exists b :: HoldsWord(after, steps[pc].guard.value.flag, Some(Flag(b)))
    ensures var next := pc + 1;
            TargetRun(program, TRunning(callers, top), k)
            == if steps[pc].guard.Some? && HoldsWord(after, steps[pc].guard.value.flag, Some(Flag(true)))
               then TFailed(steps[pc].guard.value.op)
               else TRunning(callers, top.(code := CodeFrom(steps, exit, next), locals := after))
    ensures k == 0 ==> steps[pc].guard.None?
  {
    var insts, n := steps[pc].insts, |steps[pc].insts|;
    match steps[pc].guard
    case None =>
      StraightLine(program, callers, top, insts, CodeFrom(steps, exit, pc + 1));
      k := n;
    case Some(Guard(op, flag, v)) =>
      var branch := BlockCode([], Brif(flag, Failure(v), Continued(v)));
      assert insts + [] == insts;
      StraightLine(program, callers, top, insts, branch);
      var tested := TRunning(callers, top.(code := branch, locals := after));
      if HoldsWord(after, flag, Some(Flag(true))) {
        var failing := TargetStep(program, tested);
        assert failing == TRunning(callers, top.(code := BlockCode([CallHandler(op)], Trap), locals := after));
        assert TargetRun(program, tested, 2) == TargetStep(program, failing);
        TargetRunAdds(program, TRunning(callers, top), n, 2);
        k := n + 2;
      } else {
        assert TargetRun(program, tested, 1) == TargetStep(program, tested);
        TargetRunAdds(program, TRunning(callers, top), n, 1);
        k := n + 1;
      }
  }

  // One function's code.

  ghost function StepsAt(c: Context, targets: Functions, b: BlockId): seq<Lowering.Step>
    requires b in c.blocks
  {
    StepsOf(NativesOf(c), targets, c.blocks[b])
  }

  ghost function ExitAt(c: Context, ids: set<BlockId>, b: BlockId): Exit
    requires b in c.blocks
  {
    ExitOf(NativesOf(c), ids, c.blocks[b])
  }

  /** The frame has still to execute the code of its block from its position on. */
  ghost predicate CodeMatches(c: Context, targets: Functions, ids: set<BlockId>, frame: Frame, code: BlockCode) {
    Positioned(c, frame) && code == CodeFrom(StepsAt(c, targets, frame.block), ExitAt(c, ids, frame.block), frame.pc)
  }

  /** The target frame is where the NIR frame is, with the same data. */
  ghost predicate Mirrors(c: Context, targets: Functions, ids: set<BlockId>, frame: Frame, target: TargetFrame) {
    && target.callee == frame.callee
    && CodeMatches(c, targets, ids, frame, target.code)
    && LocalsMatch(c, frame, target.locals)
  }

  lemma EmittedGuard(c: Context, targets: Functions, ids: set<BlockId>, code: map<Label, BlockCode>, frame: Frame)
    requires IsLoweredBody(c, targets, ids, code) && Positioned(c, frame)
    ensures GuardEmitted(code, StepsAt(c, targets, frame.block), ExitAt(c, ids, frame.block), frame.pc)
  {
    assert PlannedBlockEmitted(c, targets, ids, code, frame.block);
  }

  lemma ValueStep(c: Context, targets: Functions, frame: Frame, result: ValueId, ty: Ty, kind: ValueKind)
    requires ValueInstructionAt(c, frame, result, ty, kind)
    requires ValueCode(NativesOf(c), targets, result, ty, kind).Ok?
    ensures var fragment := ValueCode(NativesOf(c), targets, result, ty, kind).value;
            StepsAt(c, targets, frame.block)[frame.pc]
              == Step(fragment.insts, fragment.guard, Some((result, fragment.native)))
  {
  }

  /** A value instruction and its code: the same value in its register, or the same operator failing. */
  lemma ValueSimulated(program: Program, c: Context, targets: Functions, ids: set<BlockId>, callers: seq<TargetFrame>,
                       frame: Frame, top: TargetFrame, result: ValueId, ty: Ty, kind: ValueKind)
    returns (k: nat, after: Locals)
    requires Holds(c, frame) && Mirrors(c, targets, ids, frame, top)
    requires top.callee in program && IsLoweredBody(c, targets, ids, program[top.callee].code)
    requires ValueInstructionAt(c, frame, result, ty, kind) && InstructionOk(c, frame.block, frame.pc)
    requires !kind.Alloc? && !kind.Call? && result !in LiveAt(c, frame.block, frame.pc) && result !in c.slots
    requires kind.Constant? && kind.value.IntConst? ==> InI64(kind.value.literal)
    ensures match Evaluate(frame.values, kind)
            case Computed(d) =>
              && TargetRun(program, TRunning(callers, top), k)
                 == TRunning(callers, TargetFrame(top.callee, CodeAfter(c, targets, ids, frame), after))
              && LocalsMatch(c, Bind(frame, result, d), after)
            case Overflow(op) => k > 0 && TargetRun(program, TRunning(callers, top), k) == TFailed(op)
            case Invalid => false
  {
    ValueRuns(c, targets, frame, top.locals, result, ty, kind);
    ValueStep(c, targets, frame, result, ty, kind);
    EmittedGuard(c, targets, ids, program[top.callee].code, frame);
    var fragment := ValueCode(NativesOf(c), targets, result, ty, kind).value;
    after := ExecuteAll(fragment.insts, top.locals).value;
    FlagIsClear(fragment, top.locals, result, Evaluate(frame.values, kind));
    k := StepRuns(program, callers, top, StepsAt(c, targets, frame.block), ExitAt(c, ids, frame.block), frame.pc,
                  after);
    match Evaluate(frame.values, kind)
    case Computed(d) => BindMatches(c, frame, top.locals, after, result, d);
    case _ =>
  }

  ghost function CodeAfter(c: Context, targets: Functions, ids: set<BlockId>, frame: Frame): BlockCode
    requires Positioned(c, frame) && frame.pc < |c.blocks[frame.block].instructions|
  {
    var next := frame.pc + 1;
    CodeFrom(StepsAt(c, targets, frame.block), ExitAt(c, ids, frame.block), next)
  }

  lemma FlagIsClear(fragment: Fragment, before: Locals, result: ValueId, outcome: Evaluation)
    requires Runs(fragment, before, result, outcome)
    ensures var after := ExecuteAll(fragment.insts, before).value;
            fragment.guard.Some? ==>
              HoldsWord(after, fragment.guard.value.flag, Some(Flag(outcome.Overflow?)))
              && (HoldsWord(after, fragment.guard.value.flag, Some(Flag(true))) <==> outcome.Overflow?)
  {
  }

  lemma AllocSimulated(c: Context, targets: Functions, ids: set<BlockId>, frame: Frame, top: TargetFrame,
                       result: ValueId,
                       ty: Ty)
    requires Mirrors(c, targets, ids, frame, top) && ValueInstructionAt(c, frame, result, ty, Alloc)
    requires result in c.slots && ScalarOf(ty).Some?
    ensures top.code == CodeAfter(c, targets, ids, frame)
    ensures LocalsMatch(c, Bind(frame, result, UnitDatum).(stored := frame.stored - {result}), top.locals)
  {
    ValueStep(c, targets, frame, result, ty, Alloc);
    AllocMatches(c, frame, top.locals, result);
    var rest := CodeAfter(c, targets, ids, frame);
    assert [] + rest.insts == rest.insts;
  }

  lemma StoreSimulated(program: Program, c: Context, targets: Functions, ids: set<BlockId>, callers: seq<TargetFrame>,
                       frame: Frame, top: TargetFrame, slot: ValueId, value: ValueId)
    returns (k: nat, after: Locals)
    requires Holds(c, frame) && Mirrors(c, targets, ids, frame, top)
    requires top.callee in program && IsLoweredBody(c, targets, ids, program[top.callee].code)
    requires frame.pc < |c.blocks[frame.block].instructions|
    requires c.blocks[frame.block].instructions[frame.pc] == Store(slot, value, Observe)
    requires InstructionOk(c, frame.block, frame.pc)
    ensures TargetRun(program, TRunning(callers, top), k)
            == TRunning(callers, TargetFrame(top.callee, CodeAfter(c, targets, ids, frame), after))
    ensures value in frame.values
    ensures LocalsMatch(c, Bind(frame, slot, frame.values[value]).(stored := frame.stored + {slot}), after)
  {
    after := StoreRuns(c, frame, top.locals, slot, value);
    EmittedGuard(c, targets, ids, program[top.callee].code, frame);
    assert StepsAt(c, targets, frame.block)[frame.pc] == Step(StoreCode(NativesOf(c), slot, value).value, None, None);
    k := StepRuns(program, callers, top, StepsAt(c, targets, frame.block), ExitAt(c, ids, frame.block), frame.pc,
                  after);
  }

  // Calls.

  /** The instruction a call is lowered to. */
  ghost predicate CallIs(c: Context, targets: Functions, frame: Frame, callee: ItemId, scalar: Scalar, result: ValueId,
                         registers: seq<Register>)
    requires Positioned(c, frame) && frame.pc < |c.blocks[frame.block].instructions|
  {
    var dst := if scalar == UnitScalar then None else Some(Reg(result, 0));
    && StepsAt(c, targets, frame.block)[frame.pc].insts == [CallFunction(dst, callee, registers)]
    && StepsAt(c, targets, frame.block)[frame.pc].guard == None
  }

  lemma CallShape(c: Context, targets: Functions, frame: Frame, result: ValueId, ty: Ty, callee: ItemId,
                  typeArgs: seq<Ty>, args: seq<ValueId>, evidence: nat)
    requires ValueInstructionAt(c, frame, result, ty, Call(callee, typeArgs, args, evidence))
    requires CheckValue(c, LiveAt(c, frame.block, frame.pc), ty, Call(callee, typeArgs, args, evidence)) == None
    requires callee in targets && callee in c.functions && targets[callee] == c.functions[callee]
    ensures ScalarOf(targets[callee].returnType).Some? && ArgumentRegisters(NativesOf(c), args).Ok?
    ensures CallIs(c, targets, frame, callee, ScalarOf(targets[callee].returnType).value, result,
                   ArgumentRegisters(NativesOf(c), args).value)
  {
    CallLowers(c, LiveAt(c, frame.block, frame.pc), targets, result, ScalarOf(ty).value, callee, typeArgs, args,
               evidence);
    ValueStep(c, targets, frame, result, ty, Call(callee, typeArgs, args, evidence));
  }

  /** One argument, as the caller holds it and the callee's parameter declares it. */
  ghost predicate ArgumentHeld(natives: Natives, locals: Locals, values: Environment, arg: ValueId, param: Param) {
    && arg in values && ScalarOf(param.ty).Some?
    && OperandHeld(locals, arg, ScalarOf(param.ty).value, values[arg])
    && Lookup(natives, arg) == Ok(Held(ScalarOf(param.ty).value, Reg(arg, 0)))
  }

  ghost predicate ArgumentsHeld(natives: Natives, locals: Locals, values: Environment, args: seq<ValueId>,
                                params: seq<Param>) {
    |args| == |params|
    && forall i {:trigger args[i]} :: 0 <= i < |args| ==> ArgumentHeld(natives, locals, values, args[i], params[i])
  }

  ghost predicate DistinctParameters(params: seq<Param>) {
    forall i, j :: 0 <= i < j < |params| ==> params[i].value != params[j].value
  }

  /** Once `unit` is erased, registers, parameter types and argument registers still line up, position by position. */
  lemma {:induction false} ArgumentsLineUp(natives: Natives, locals: Locals, values: Environment, args: seq<ValueId>,
                                           params: seq<Param>)
    requires ArgumentsHeld(natives, locals, values, args, params)
    ensures ArgumentRegisters(natives, args).Ok? && ParameterTypes(params).Ok?
    ensures |ArgumentsOf(params)| == |ArgumentRegisters(natives, args).value|
    ensures ArgumentsFit(locals.registers, ArgumentRegisters(natives, args).value, ParameterTypes(params).value)
  {
    if args != [] {
      var n := |args| - 1;
      ArgumentHeldBefore(natives, locals, values, args, params);
      ArgumentsLineUp(natives, locals, values, args[..n], params[..n]);
    }
  }

  lemma ArgumentHeldBefore(natives: Natives, locals: Locals, values: Environment, args: seq<ValueId>,
                           params: seq<Param>)
    requires args != [] && ArgumentsHeld(natives, locals, values, args, params)
    ensures var n := |args| - 1;
            ArgumentHeld(natives, locals, values, args[n], params[n])
            && ArgumentsHeld(natives, locals, values, args[..n], params[..n])
  {
    var n := |args| - 1;
    assert ArgumentHeld(natives, locals, values, args[n], params[n]);
    forall i | 0 <= i < n
      ensures ArgumentHeld(natives, locals, values, args[..n][i], params[..n][i])
    {
      assert args[i] == args[..n][i];
    }
  }

  /** What the callee's registers hold: the word of each argument in its parameter's register. */
  ghost function Passed(values: Environment, args: seq<ValueId>, params: seq<Param>): map<Register, Word>
    requires |args| == |params| && forall i :: 0 <= i < |args| ==> args[i] in values
  {
    if args == [] then map[]
    else
      var n := |args| - 1;
      assert forall i :: 0 <= i < n ==> args[..n][i] == args[i];
      var before := Passed(values, args[..n], params[..n]);
      match WordOf(values[args[n]])
      case None => before
      case Some(word) => before[Reg(params[n].value, 0) := word]
  }

  lemma {:induction false} PassingArrives(natives: Natives, locals: Locals, values: Environment, args: seq<ValueId>,
                                          params: seq<Param>)
    requires ArgumentsHeld(natives, locals, values, args, params)
    requires forall i :: 0 <= i < |args| ==> args[i] in values
    ensures ArgumentRegisters(natives, args).Ok? && ParameterTypes(params).Ok?
    ensures |ArgumentsOf(params)| == |ArgumentRegisters(natives, args).value|
    ensures ArgumentsFit(locals.registers, ArgumentRegisters(natives, args).value, ParameterTypes(params).value)
    ensures PassArguments(locals.registers, ArgumentRegisters(natives, args).value, ArgumentsOf(params))
            == Passed(values, args, params)
  {
    ArgumentsLineUp(natives, locals, values, args, params);
    if args != [] {
      var n := |args| - 1;
      ArgumentHeldBefore(natives, locals, values, args, params);
      assert forall i :: 0 <= i < n ==> args[..n][i] == args[i];
      PassingArrives(natives, locals, values, args[..n], params[..n]);
      LastArgument(natives, locals, values, args, params);
      if ScalarOf(params[n].ty) != Some(UnitScalar) {
        var before, into := ArgumentRegisters(natives, args[..n]).value, ArgumentsOf(params[..n]);
        PassOneMore(locals.registers, before, into, Reg(args[n], 0), Reg(params[n].value, 0));
      }
    }
  }

  /** The last argument adds one register, and its word, unless it is `unit`. */
  lemma LastArgument(natives: Natives, locals: Locals, values: Environment, args: seq<ValueId>, params: seq<Param>)
    requires args != [] && ArgumentsHeld(natives, locals, values, args, params)
    requires ArgumentRegisters(natives, args[..|args| - 1]).Ok?
    ensures var n := |args| - 1;
            var before, into := ArgumentRegisters(natives, args[..n]).value, ArgumentsOf(params[..n]);
            && args[n] in values
            && if ScalarOf(params[n].ty) == Some(UnitScalar) then
                 ArgumentRegisters(natives, args) == Ok(before) && ArgumentsOf(params) == into
                   && WordOf(values[args[n]]) == None
               else
                 && ArgumentRegisters(natives, args) == Ok(before + [Reg(args[n], 0)])
                 && ArgumentsOf(params) == into + [Reg(params[n].value, 0)]
                 && WordOf(values[args[n]]).Some?
                 && HoldsWord(locals, Reg(args[n], 0), WordOf(values[args[n]]))
  {
    ArgumentHeldBefore(natives, locals, values, args, params);
    var into := ArgumentsOf(params[..|args| - 1]);
    assert into + [] == into;
  }

  lemma PassOneMore(registers: map<Register, Word>, args: seq<Register>, into: seq<Register>, arg: Register,
                    dst: Register)
    requires |args| == |into| && arg in registers && forall i :: 0 <= i < |args| ==> args[i] in registers
    ensures PassArguments(registers, args + [arg], into + [dst])
            == PassArguments(registers, args, into)[dst := registers[arg]]
  {
    assert (args + [arg])[..|args|] == args && (into + [dst])[..|into|] == into;
  }

  lemma {:induction false} PassedHolds(values: Environment, args: seq<ValueId>, params: seq<Param>, i: nat)
    requires |args| == |params| && DistinctParameters(params) && i < |args|
    requires forall j :: 0 <= j < |args| ==> args[j] in values
    ensures HoldsWord(Locals(Passed(values, args, params), map[]), Reg(params[i].value, 0), WordOf(values[args[i]]))
  {
    var n := |args| - 1;
    assert forall j :: 0 <= j < n ==> args[..n][j] == args[j] && params[..n][j] == params[j];
    if i < n {
      PassedHolds(values, args[..n], params[..n], i);
    }
  }

  // A whole program.

  /** A program, its plan, and what lowering made of it. */
  datatype Compilation = Compilation(functions: Functions, plan: NativePlan, program: Program)

  function Targets(w: Compilation): Functions {
    Planned(w.functions, w.plan.functions)
  }

  ghost predicate CompiledFunction(w: Compilation, id: ItemId) {
    && id in w.plan.functions && id in w.functions && id in w.program && id in w.plan.reachableBlocks
    && IsLoweredFunction(w.functions, Targets(w), w.plan.reachableBlocks[id], w.functions[id], w.program[id])
  }

  function CreatedBlocks(w: Compilation, id: ItemId): set<BlockId> {
    if id in w.plan.reachableBlocks then Members(w.plan.reachableBlocks[id]) else {}
  }

  ghost predicate FrameMirrored(w: Compilation, frame: Frame, target: TargetFrame) {
    && FrameOk(w.functions, frame) && CompiledFunction(w, frame.callee)
    && Mirrors(ContextOf(w.functions, w.functions[frame.callee]), Targets(w), CreatedBlocks(w, frame.callee), frame,
               target)
  }

  lemma CallArgumentsHeld(c: Context, frame: Frame, locals: Locals, ty: Ty, callee: ItemId, typeArgs: seq<Ty>,
                          args: seq<ValueId>, evidence: nat)
    requires Holds(c, frame) && LocalsMatch(c, frame, locals)
    requires CheckValue(c, LiveAt(c, frame.block, frame.pc), ty, Call(callee, typeArgs, args, evidence)) == None
    ensures callee in c.functions
    ensures ArgumentsHeld(NativesOf(c), locals, frame.values, args, c.functions[callee].params)
    ensures forall i :: 0 <= i < |args| ==> args[i] in frame.values
  {
    var live := LiveAt(c, frame.block, frame.pc);
    var params := c.functions[callee].params;
    forall i | 0 <= i < |args|
      ensures args[i] in frame.values && ArgumentHeld(NativesOf(c), locals, frame.values, args[i], params[i])
    {
      assert ArgumentFits(c, live, args[i], params[i]);
      OperandMatches(c, frame, locals, args[i]);
    }
  }

  /** The callee's frame once it is entered. */
  ghost function EnteredTarget(w: Compilation, callee: ItemId, values: Environment, args: seq<ValueId>): TargetFrame
    requires CompiledFunction(w, callee) && |args| == |w.functions[callee].params|
    requires forall i :: 0 <= i < |args| ==> args[i] in values
    requires ENTRY_BLOCK in ContextOf(w.functions, w.functions[callee]).blocks
  {
    var c := ContextOf(w.functions, w.functions[callee]);
    TargetFrame(callee,
                CodeFrom(StepsAt(c, Targets(w), ENTRY_BLOCK), ExitAt(c, CreatedBlocks(w, callee), ENTRY_BLOCK), 0),
                Locals(Passed(values, args, w.functions[callee].params), map[]))
  }

  lemma EntryEmitted(c: Context, targets: Functions, ids: set<BlockId>, code: map<Label, BlockCode>)
    requires IsLoweredBody(c, targets, ids, code) && ENTRY_BLOCK in c.blocks
    ensures Main(ENTRY_BLOCK) in code
    ensures code[Main(ENTRY_BLOCK)] == CodeFrom(StepsAt(c, targets, ENTRY_BLOCK), ExitAt(c, ids, ENTRY_BLOCK), 0)
  {
    ReachSelf(Cfg(c.blocks), ENTRY_BLOCK);
    assert PlannedBlockEmitted(c, targets, ids, code, ENTRY_BLOCK);
  }

  /** Entering a function takes its prologue's jump to the code of its entry block. */
  lemma PrologueJumps(w: Compilation, callers: seq<TargetFrame>, callee: ItemId, locals: Locals)
    requires CompiledFunction(w, callee) && ENTRY_BLOCK in ContextOf(w.functions, w.functions[callee]).blocks
    ensures Prologue in w.program[callee].code
    ensures var c := ContextOf(w.functions, w.functions[callee]);
            TargetStep(w.program, TRunning(callers, TargetFrame(callee, w.program[callee].code[Prologue], locals)))
            == TRunning(callers, TargetFrame(callee,
                 CodeFrom(StepsAt(c, Targets(w), ENTRY_BLOCK), ExitAt(c, CreatedBlocks(w, callee), ENTRY_BLOCK), 0),
                   locals))
  {
    var c := ContextOf(w.functions, w.functions[callee]);
    EntryEmitted(c, Targets(w), CreatedBlocks(w, callee), w.program[callee].code);
  }

  /** A fresh callee mirrors: its parameters' registers hold its arguments' words. */
  lemma EnteredMirrors(w: Compilation, callee: ItemId, values: Environment, args: seq<ValueId>)
    requires CompiledFunction(w, callee) && CheckedFunction(w.functions, callee)
    requires Enterable(w.functions, values, callee, args)
    ensures ENTRY_BLOCK in ContextOf(w.functions, w.functions[callee]).blocks
    ensures FrameMirrored(w, Entered(w.functions, values, callee, args), EnteredTarget(w, callee, values, args))
  {
    var f := w.functions[callee];
    var c := ContextOf(w.functions, f);
    var frame, target := Entered(w.functions, values, callee, args), EnteredTarget(w, callee, values, args);
    CalleeStarts(w.functions, callee, values, args);
    ParametersBound(values, args, f.params);
    forall v
      ensures RegisterOk(c, frame, target.locals, v)
    {
      if v in frame.values {
        var i :| 0 <= i < |f.params| && f.params[i].value == v;
        PassedHolds(values, args, f.params, i);
      }
    }
    assert forall s :: VariableOk(frame, target.locals, s);
  }

  lemma CallStepSimulated(w: Compilation, callers: seq<TargetFrame>, top: TargetFrame, dst: Option<Register>,
                          callee: ItemId,
                          values: Environment, args: seq<ValueId>, natives: Natives)
    requires CompiledFunction(w, callee) && ENTRY_BLOCK in ContextOf(w.functions, w.functions[callee]).blocks
    requires ArgumentsHeld(natives, top.locals, values, args, w.functions[callee].params)
    requires forall i :: 0 <= i < |args| ==> args[i] in values
    requires ArgumentRegisters(natives, args).Ok?
    requires top.code.insts != []
             && top.code.insts[0] == CallFunction(dst, callee, ArgumentRegisters(natives, args).value)
    ensures TargetRun(w.program, TRunning(callers, top), 2)
            == TRunning(callers + [top], EnteredTarget(w, callee, values, args))
  {
    var params := w.functions[callee].params;
    PassingArrives(natives, top.locals, values, args, params);
    var locals := Locals(Passed(values, args, params), map[]);
    PrologueJumps(w, callers + [top], callee, locals);
    var entered := TRunning(callers + [top], TargetFrame(callee, w.program[callee].code[Prologue], locals));
    assert TargetStep(w.program, TRunning(callers, top)) == entered;
    assert TargetRun(w.program, TRunning(callers, top), 2) == TargetRun(w.program, entered, 1);
    assert TargetRun(w.program, entered, 1) == TargetStep(w.program, entered);
  }

  /** A call and its code: the same arguments reach the same callee, and the caller stays where it is. */
  lemma CallSimulated(w: Compilation, callers: seq<TargetFrame>, frame: Frame, top: TargetFrame, result: ValueId,
                      ty: Ty,
                      callee: ItemId, typeArgs: seq<Ty>, args: seq<ValueId>, evidence: nat)
    requires FrameMirrored(w, frame, top)
    requires InstructionOf(w.functions, frame) == Some(Value(result, ty, Call(callee, typeArgs, args, evidence)))
    requires CompiledFunction(w, callee) && CheckedFunction(w.functions, callee)
    requires Enterable(w.functions, frame.values, callee, args)
    requires ENTRY_BLOCK in ContextOf(w.functions, w.functions[callee]).blocks
    ensures TargetRun(w.program, TRunning(callers, top), 2)
            == TRunning(callers + [top], EnteredTarget(w, callee, frame.values, args))
  {
    var c := ContextOf(w.functions, w.functions[frame.callee]);
    AtInstruction(w.functions, frame, c);
    CallShape(c, Targets(w), frame, result, ty, callee, typeArgs, args, evidence);
    CallArgumentsHeld(c, frame, top.locals, ty, callee, typeArgs, args, evidence);
    var registers := ArgumentRegisters(NativesOf(c), args).value;
    var dst := if ScalarOf(w.functions[callee].returnType) == Some(UnitScalar) then None else Some(Reg(result, 0));
    CallHead(c, Targets(w), CreatedBlocks(w, frame.callee), frame, top.code, callee,
             ScalarOf(Targets(w)[callee].returnType).value, result, registers);
    CallStepSimulated(w, callers, top, dst, callee, frame.values, args, NativesOf(c));
  }

  /** A frame at a call has the call at the head of its code. */
  lemma CallHead(c: Context, targets: Functions, ids: set<BlockId>, frame: Frame, code: BlockCode, callee: ItemId,
                 scalar: Scalar, result: ValueId, registers: seq<Register>)
    requires CodeMatches(c, targets, ids, frame, code) && frame.pc < |c.blocks[frame.block].instructions|
    requires CallIs(c, targets, frame, callee, scalar, result, registers)
    ensures code.insts != []
    ensures code.insts[0]
            == CallFunction(if scalar == UnitScalar then None else Some(Reg(result, 0)), callee, registers)
    ensures Rest(code) == CodeAfter(c, targets, ids, frame)
  {
    var rest := CodeAfter(c, targets, ids, frame);
    var call := StepsAt(c, targets, frame.block)[frame.pc].insts;
    assert (call + rest.insts)[1..] == rest.insts;
  }
}
