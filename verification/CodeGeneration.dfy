/** Code generation as it runs: a builder filled instruction by instruction, function by function. */
module CodeGeneration {
  import opened Wrappers
  import opened Numeric
  import opened Nir
  import opened Graphs
  import opened Dataflow
  import opened Postorder
  import opened Capability
  import opened TypeSafety
  import opened TargetIr
  import opened Lowering
  import opened Bodies

  /** A value was emitted as its specification says: the same error, or the same code and the same register. */
  ghost predicate Emits(before: Builder, after: Builder, expected: Lowered<Fragment>, r: Lowered<Native>) {
    match expected
    case Err(error) => r == Err(error)
    case Ok(fragment) => r == Ok(fragment.native) && after == Append(before, fragment.insts, fragment.guard)
  }

  class BodyLowerer {
    const targets: Functions
    const ids: set<BlockId>
    var code: map<Label, BlockCode>
    var current: Label
    var open: seq<Inst>
    var natives: Natives

    constructor (targets: Functions, ids: set<BlockId>)
      ensures this.targets == targets && this.ids == ids
      ensures State() == Builder(map[], Prologue, []) && natives == map[]
    {
      this.targets, this.ids := targets, ids;
      code, current, open, natives := map[], Prologue, [], map[];
    }

    function State(): Builder
      reads this
    {
      Builder(code, current, open)
    }

    method Push(inst: Inst)
      modifies this`open
      ensures State() == Append(old(State()), [inst], None)
    {
      open := open + [inst];
    }

    method Finish(exit: Exit)
      modifies this`code
      ensures code == old(code)[current := BlockCode(open, exit)]
    {
      code := code[current := BlockCode(open, exit)];
    }

    method SwitchTo(block: Label)
      modifies this`current, this`open
      ensures current == block && open == []
    {
      current, open := block, [];
    }

    /** Ends the open block with a branch on `flag`, fills the failure block of `v`, and opens its continuation. */
    method Check(op: CheckedOp, flag: Register, v: ValueId)
      modifies this`code, this`current, this`open
      ensures State() == Append(old(State()), [], Some(Guard(op, flag, v)))
    {
      assert open + [] == open;
      Finish(Brif(flag, Failure(v), Continued(v)));
      SwitchTo(Failure(v));
      Push(CallHandler(op));
      assert open == [CallHandler(op)];
      Finish(Trap);
      SwitchTo(Continued(v));
    }

    /** Leaves the sign of `(a1 ^ b1) & (a2 ^ b2)` in the flag of `v`. */
    method SignTest(v: ValueId, a1: Register, b1: Register, a2: Register, b2: Register)
      modifies this`open
      ensures open == old(open) + SignTestInsts(v, a1, b1, a2, b2)
    {
      Push(Bits(Reg(v, 1), Xor, a1, b1));
      Push(Bits(Reg(v, 2), Xor, a2, b2));
      Push(Bits(Reg(v, 3), And, Reg(v, 1), Reg(v, 2)));
      Push(IcmpImm(Reg(v, 4), SignedLess, Reg(v, 3), 0));
    }

    /** Pushes the arithmetic and the test of its overflow. */
    method PushChecked(op: CheckedOp, v: ValueId, left: Register, right: Register)
      requires op != NegOp
      modifies this`open
      ensures open == old(open) + CheckedInsts(op, v, left, right)
    {
      var value := Reg(v, 0);
      match op {
        case AddOp =>
          Push(Arith(value, Iadd, left, right));
          SignTest(v, left, value, right, value);
        case SubOp =>
          Push(Arith(value, Isub, left, right));
          SignTest(v, left, right, left, value);
        case MulOp =>
          Push(Arith(value, Imul, left, right));
          Push(Arith(Reg(v, 1), Smulhi, left, right));
          Push(SshrImm(Reg(v, 2), value, MAGNITUDE_BITS));
          Push(Icmp(Reg(v, 4), NotEqual, Reg(v, 1), Reg(v, 2)));
      }
    }

    /** A checked binary operation: its instructions, then the branch on their flag. Negation is none. */
    method CheckedBinary(op: CheckedOp, result: ValueId, a: ValueId, b: ValueId) returns (r: Lowered<Native>)
      modifies this`code, this`current, this`open
      ensures Emits(old(State()), State(), CheckedBinaryCode(natives, op, result, a, b), r)
    {
      var left := IntegerOf(natives, a);
      if left.Err? { return Err(left.error); }
      var right := IntegerOf(natives, b);
      if right.Err? { return Err(right.error); }
      if op == NegOp { return Err(UnsupportedByBackend); }
      PushChecked(op, result, left.value, right.value);
      assert open + [] == open;
      Check(op, Reg(result, 4), result);
      r := Ok(NativeInt(Reg(result, 0)));
    }

    method Negate(result: ValueId, a: ValueId) returns (r: Lowered<Native>)
      modifies this`code, this`current, this`open
      ensures Emits(old(State()), State(), CheckedCode(natives, NegOp, result, a, a), r)
    {
      var operand := IntegerOf(natives, a);
      if operand.Err? { return Err(operand.error); }
      Push(Ineg(Reg(result, 0), operand.value));
      // The flag compares with I64_MIN.
      Push(IcmpImm(Reg(result, 4), Equal, operand.value, I64_MIN));
      assert open == old(open) + CheckedInsts(NegOp, result, operand.value, operand.value);
      assert open + [] == open;
      Check(NegOp, Reg(result, 4), result);
      r := Ok(NativeInt(Reg(result, 0)));
    }

    method BitwiseValue(op: BitOp, result: ValueId, a: ValueId, b: ValueId) returns (r: Lowered<Native>)
      modifies this`open
      ensures Emits(old(State()), State(), BitsCode(natives, op, result, a, b), r)
    {
      var left := IntegerOf(natives, a);
      if left.Err? { return Err(left.error); }
      var right := IntegerOf(natives, b);
      if right.Err? { return Err(right.error); }
      Push(Bits(Reg(result, 0), op, left.value, right.value));
      r := Ok(NativeInt(Reg(result, 0)));
    }

    method Compare(cc: IntCC, unitAnswer: bool, result: ValueId, a: ValueId, b: ValueId) returns (r: Lowered<Native>)
      modifies this`open
      ensures Emits(old(State()), State(), CompareCode(natives, cc, unitAnswer, result, a, b), r)
    {
      var left := Lookup(natives, a);
      if left.Err? { return Err(left.error); }
      var right := Lookup(natives, b);
      if right.Err? { return Err(right.error); }
      var register := Reg(result, 0);
      match (left.value, right.value) {
        case (NativeUnit, NativeUnit) => Push(Iconst(register, Flag(unitAnswer)));
        case (NativeInt(x), NativeInt(y)) => Push(Icmp(register, cc, x, y));
        case (NativeBool(x), NativeBool(y)) => Push(Icmp(register, cc, x, y));
        case _ => return Err(NotComparable(a, b));
      }
      r := Ok(NativeBool(register));
    }

    method OrderedCompare(signed: IntCC, unsigned: IntCC, result: ValueId, a: ValueId, b: ValueId)
      returns (r: Lowered<Native>)
      modifies this`open
      ensures Emits(old(State()), State(), OrderedCode(natives, signed, unsigned, result, a, b), r)
    {
      var left := Lookup(natives, a);
      if left.Err? { return Err(left.error); }
      var right := Lookup(natives, b);
      if right.Err? { return Err(right.error); }
      var register := Reg(result, 0);
      match (left.value, right.value) {
        case (NativeInt(x), NativeInt(y)) => Push(Icmp(register, signed, x, y));
        case (NativeBool(x), NativeBool(y)) => Push(Icmp(register, unsigned, x, y));
        case _ => return Err(NotComparable(a, b));
      }
      r := Ok(NativeBool(register));
    }

    /** The registers to pass, `unit` arguments left out. */
    method Arguments(args: seq<ValueId>) returns (r: Lowered<seq<Register>>)
      ensures r == ArgumentRegisters(natives, args)
    {
      var registers: seq<Register> := [];
      for i := 0 to |args|
        invariant ArgumentRegisters(natives, args[..i]) == Ok(registers)
      {
        assert args[..i + 1][..i] == args[..i] && args[..i + 1][i] == args[i];
        var native := Lookup(natives, args[i]);
        match native {
          case Err(error) =>
            ArgumentErrorStays(natives, args, i + 1);
            return Err(error);
          case Ok(NativeUnit) =>
          case Ok(NativeInt(register)) => registers := registers + [register];
          case Ok(NativeBool(register)) => registers := registers + [register];
          case Ok(NativeSlot(_, _)) =>
            ArgumentErrorStays(natives, args, i + 1);
            return Err(SlotAsArgument(args[i]));
        }
      }
      assert args[..|args|] == args;
      r := Ok(registers);
    }

    method CallValue(result: ValueId, callee: ItemId, args: seq<ValueId>) returns (r: Lowered<Native>)
      modifies this`open
      ensures Emits(old(State()), State(), CallCode(natives, targets, result, callee, args), r)
    {
      if callee !in targets { return Err(AbsentCallee(callee)); }
      var registers := Arguments(args);
      if registers.Err? { return Err(registers.error); }
      var returned := ScalarOf(targets[callee].returnType);
      if returned == None { return Err(UnsupportedByBackend); }
      if AbiType(returned.value) == None {
        Push(CallFunction(None, callee, registers.value));
        return Ok(NativeUnit);
      }
      Push(CallFunction(Some(Reg(result, 0)), callee, registers.value));
      r := Ok(Held(returned.value, Reg(result, 0)));
    }

    method ConstantValue(result: ValueId, value: Const) returns (r: Lowered<Native>)
      modifies this`open
      ensures Emits(old(State()), State(), ConstantCode(result, value), r)
    {
      var register := Reg(result, 0);
      match value {
        case IntConst(literal) =>
          if !InI64(literal) { return Err(NotAnInteger(literal)); }
          Push(Iconst(register, I64(literal)));
          r := Ok(NativeInt(register));
        case BoolConst(flag) =>
          Push(Iconst(register, Flag(flag)));
          r := Ok(NativeBool(register));
        case UnitConst =>
          assert open + [] == open;
          r := Ok(NativeUnit);
        case OtherConst(_) => r := Err(UnsupportedByBackend);
      }
    }

    method LoadValue(result: ValueId, slot: ValueId) returns (r: Lowered<Native>)
      modifies this`open
      ensures Emits(old(State()), State(), LoadCode(natives, result, slot), r)
    {
      var native := Lookup(natives, slot);
      match native {
        case Err(error) => r := Err(error);
        case Ok(NativeSlot(None, _)) =>
          assert open + [] == open;
          r := Ok(NativeUnit);
        case Ok(NativeSlot(Some(variable), scalar)) =>
          Push(UseVar(Reg(result, 0), variable));
          r := Ok(Held(scalar, Reg(result, 0)));
        case Ok(_) => r := Err(NotASlot(slot));
      }
    }

    method BinaryValue(op: BinaryOp, result: ValueId, a: ValueId, b: ValueId) returns (r: Lowered<Native>)
      modifies this`code, this`current, this`open
      ensures Emits(old(State()), State(), BinaryCode(natives, op, result, a, b), r)
    {
      match op {
        case Add => r := CheckedBinary(AddOp, result, a, b);
        case Sub => r := CheckedBinary(SubOp, result, a, b);
        case Mul => r := CheckedBinary(MulOp, result, a, b);
        case BitAnd => r := BitwiseValue(And, result, a, b);
        case BitOr => r := BitwiseValue(Or, result, a, b);
        case BitXor => r := BitwiseValue(Xor, result, a, b);
        case Eq => r := Compare(Equal, true, result, a, b);
        case Ne => r := Compare(NotEqual, false, result, a, b);
        case Lt => r := OrderedCompare(SignedLess, UnsignedLess, result, a, b);
        case Le => r := OrderedCompare(SignedLessOrEqual, UnsignedLessOrEqual, result, a, b);
        case Gt => r := OrderedCompare(SignedGreater, UnsignedGreater, result, a, b);
        case Ge => r := OrderedCompare(SignedGreaterOrEqual, UnsignedGreaterOrEqual, result, a, b);
        case _ => r := Err(UnsupportedByBackend);
      }
    }

    method NotValue(result: ValueId, a: ValueId) returns (r: Lowered<Native>)
      modifies this`open
      ensures Emits(old(State()), State(), NotCode(natives, result, a), r)
    {
      var native := Lookup(natives, a);
      var register := Reg(result, 0);
      match native {
        case Ok(NativeInt(x)) =>
          Push(Bnot(register, x));
          r := Ok(NativeInt(register));
        case Ok(NativeBool(x)) =>
          // `bnot` would leave 0xfe.
          Push(BxorImm(register, x, 1));
          r := Ok(NativeBool(register));
        case Ok(_) => r := Err(CannotInvert(a));
        case Err(error) => r := Err(error);
      }
    }

    method KindValue(result: ValueId, scalar: Scalar, kind: ValueKind) returns (r: Lowered<Native>)
      modifies this`code, this`current, this`open
      ensures Emits(old(State()), State(), KindCode(natives, targets, result, scalar, kind), r)
    {
      match kind {
        case Alloc =>
          assert open + [] == open;
          r := Ok(NativeSlot(if AbiType(scalar).Some? then Some(result) else None, scalar));
        case Constant(value) => r := ConstantValue(result, value);
        case Load(slot) => r := LoadValue(result, slot);
        case Binary(op, a, b) => r := BinaryValue(op, result, a, b);
        case Neg(a) => r := Negate(result, a);
        case Not(a) => r := NotValue(result, a);
        case Call(callee, _, args, _) => r := CallValue(result, callee, args);
        case ProtocolCall(_) => r := Err(UnsupportedByBackend);
        case UnsupportedKind(_) => r := Err(UnsupportedByBackend);
      }
    }

    method StoreValue(slot: ValueId, value: ValueId) returns (r: Lowered<()>)
      modifies this`open
      ensures match StoreCode(natives, slot, value)
              case Err(error) => r == Err(error)
              case Ok(insts) => r.Ok? && State() == Append(old(State()), insts, None)
    {
      var target := Lookup(natives, slot);
      if target.Err? { return Err(target.error); }
      var stored := Lookup(natives, value);
      if stored.Err? { return Err(stored.error); }
      match (target.value, stored.value) {
        case (NativeSlot(None, UnitScalar), NativeUnit) => assert open + [] == open;
        case (NativeSlot(Some(variable), IntScalar), NativeInt(x)) => Push(DefVar(variable, x));
        case (NativeSlot(Some(variable), BoolScalar), NativeBool(x)) => Push(DefVar(variable, x));
        case (NativeSlot(_, _), _) => return Err(CannotHold(slot));
        case _ => return Err(NotASlot(slot));
      }
      r := Ok(());
    }

    method LowerInstruction(instruction: Instruction) returns (r: Lowered<()>)
      modifies this
      ensures match InstructionCode(old(natives), targets, instruction)
              case Err(error) => r == Err(error)
              case Ok(step) =>
                && r.Ok?
                && State() == Append(old(State()), step.insts, step.guard)
                && natives == if step.defined.Some? then old(natives)[step.defined.value.0 := step.defined.value.1]
                              else old(natives)
    {
      match instruction {
        case Value(result, ty, kind) =>
          var scalar := ScalarOf(ty);
          if scalar == None { return Err(UnsupportedByBackend); }
          var native := KindValue(result, scalar.value, kind);
          if native.Err? { return Err(native.error); }
          natives := natives[result := native.value];
          r := Ok(());
        case Store(slot, value, _) => r := StoreValue(slot, value);
        case UnsupportedInstruction(_) => r := Err(UnsupportedByBackend);
      }
    }

    method LowerTerminator(terminator: Terminator) returns (r: Lowered<()>)
      modifies this`code
      ensures match ExitCode(natives, ids, terminator)
              case Err(error) => r == Err(error)
              case Ok(exit) => r.Ok? && code == old(code)[current := BlockCode(open, exit)]
    {
      match terminator {
        case Return(None) => Finish(Ret(None));
        case Return(Some(v)) =>
          var native := Lookup(natives, v);
          match native {
            case Err(error) => return Err(error);
            case Ok(NativeUnit) => Finish(Ret(None));
            case Ok(NativeInt(x)) => Finish(Ret(Some(x)));
            case Ok(NativeBool(x)) => Finish(Ret(Some(x)));
            case Ok(NativeSlot(_, _)) => return Err(SlotAsArgument(v));
          }
        case Branch(target) =>
          var destination := BlockLabel(ids, target);
          if destination.Err? { return Err(destination.error); }
          Finish(Jump(destination.value));
        case CondBranch(condition, thenBlock, elseBlock) =>
          var flag := BooleanOf(natives, condition);
          if flag.Err? { return Err(flag.error); }
          var thenLabel := BlockLabel(ids, thenBlock);
          if thenLabel.Err? { return Err(thenLabel.error); }
          var elseLabel := BlockLabel(ids, elseBlock);
          if elseLabel.Err? { return Err(elseLabel.error); }
          Finish(Brif(flag.value, thenLabel.value, elseLabel.value));
        case _ => return Err(UnsupportedByBackend);
      }
      r := Ok(());
    }

    /** Lowers one instruction of a block, if it can be lowered there: its code is appended, and what it defines is
        known after it. */
    method LowerNext(block: BasicBlock, i: nat, ghost full: Natives, ghost known: Values) returns (r: Lowered<()>)
      requires BlockLowers(full, targets, ids, block) && i < |block.instructions|
      requires Holding(natives, full, known + DefinedIn(block.instructions[..i]))
      modifies this
      ensures r.Ok? <==> PositionFits(known, block, i)
      ensures r.Ok? ==> State() == Append(old(State()), StepsOf(full, targets, block)[i].insts,
                                          StepsOf(full, targets, block)[i].guard)
      ensures r.Ok? ==> Holding(natives, full, known + DefinedIn(block.instructions[..i + 1]))
      ensures r.Err? ==> StoppedIn(known, block, r.error)
    {
      InstructionDecided(natives, full, targets, ids, known, block, i);
      ghost var before := natives;
      r := LowerInstruction(block.instructions[i]);
      if r.Ok? {
        HoldsOneMore(before, natives, full, known, block, i);
      }
    }

    /** Lowers the instruction after the first `i` of a block, whose filling began at `start`. */
    method LowerOneMore(block: BasicBlock, i: nat, ghost full: Natives, ghost known: Values, ghost start: Builder)
      returns (r: Lowered<()>)
      requires BlockLowers(full, targets, ids, block) && i < |block.instructions|
      requires Filling(start, State(), natives, full, targets, ids, known, block, i)
      modifies this
      ensures r.Ok? ==> Filling(start, State(), natives, full, targets, ids, known, block, i + 1)
      ensures r.Err? ==> !BlockFits(known, block) && StoppedIn(known, block, r.error)
    {
      r := LowerNext(block, i, full, known);
      if r.Err? {
        assert !PositionFits(known, block, i);
      }
    }

    /** Fills one block, if it can be lowered: every instruction, then the terminator. */
    method LowerBlock(block: BasicBlock, ghost full: Natives, ghost known: Values) returns (r: Lowered<()>)
      requires BlockLowers(full, targets, ids, block) && Holding(natives, full, known)
      modifies this
      ensures r.Ok? <==> BlockFits(known, block)
      ensures r.Ok? ==> code == FilledWith(old(code), full, targets, ids, block)
      ensures r.Ok? ==> Holding(natives, full, known + DefinedIn(block.instructions))
      ensures r.Err? ==> StoppedIn(known, block, r.error)
    {
      ghost var start := Builder(code, Main(block.id), []);
      match BlockLabel(ids, block.id) {
        case Err(error) => return Err(error);
        case Ok(destination) => SwitchTo(destination);
      }
      StartsFilling(start, natives, full, targets, ids, known, block);
      for i := 0 to |block.instructions|
        invariant Filling(start, State(), natives, full, targets, ids, known, block, i)
      {
        r := LowerOneMore(block, i, full, known, start);
        if r.Err? { return; }
      }
      InstructionsFilled(start, State(), natives, full, targets, ids, known, block);
      r := LowerTerminator(block.terminator);
    }

    /** Fills the block at position `k` of the emission order, after those before it. */
    method LowerNextBlock(order: seq<BlockId>, k: nat, blocks: Blocks, ghost full: Natives, ghost parameters: Values,
                          ghost start: map<Label, BlockCode>)
      returns (r: Lowered<()>)
      requires OrderLowers(full, targets, ids, blocks, order) && k < |order|
      requires FillingOrder(start, code, natives, full, targets, ids, blocks, parameters, order, k)
      modifies this
      ensures r.Ok? ==> FillingOrder(start, code, natives, full, targets, ids, blocks, parameters, order, k + 1)
      ensures r.Err? ==> !OrderFits(blocks, parameters, order) && StoppedAt(blocks, parameters, order, k, r.error)
    {
      var id := order[k];
      if id !in blocks { return Err(BlockNeverCreated(id)); }
      ghost var before := code;
      r := LowerBlock(blocks[id], full, KnownBefore(blocks, parameters, order, k));
      if r.Ok? {
        OneMoreInOrder(start, before, code, natives, full, targets, ids, blocks, parameters, order, k);
      }
    }

    /** Fills every block of the emission order, as long as they can be lowered. */
    method LowerBlocks(order: seq<BlockId>, blocks: Blocks, ghost full: Natives, ghost parameters: Values)
      returns (r: Lowered<()>)
      requires OrderLowers(full, targets, ids, blocks, order) && Holding(natives, full, parameters)
      modifies this
      ensures r.Ok? <==> OrderFits(blocks, parameters, order)
      ensures r.Ok? ==> code == FilledWithAll(old(code), full, targets, ids, blocks, order, |order|)
      ensures r.Err? ==> exists k: nat :: StoppedAt(blocks, parameters, order, k, r.error)
    {
      ghost var start := code;
      for k := 0 to |order|
        invariant FillingOrder(start, code, natives, full, targets, ids, blocks, parameters, order, k)
      {
        r := LowerNextBlock(order, k, blocks, full, parameters, start);
        if r.Err? { return; }
      }
      r := Ok(());
    }

    /** Binds one parameter; a `unit` parameter takes no position. */
    method BindParameter(param: Param, arguments: seq<Register>) returns (r: Lowered<seq<Register>>)
      modifies this`natives
      ensures match ScalarOf(param.ty)
              case None => r.Err?
              case Some(scalar) =>
                && r == Ok(arguments + (if scalar == UnitScalar then [] else [Reg(param.value, 0)]))
                && natives == old(natives)[param.value := NativeFor(false, scalar, param.value)]
    {
      match ScalarOf(param.ty) {
        case None => r := Err(UnsupportedByBackend);
        case Some(scalar) =>
          if AbiType(scalar) == None {
            natives := natives[param.value := NativeUnit];
            assert arguments + [] == arguments;
            r := Ok(arguments);
          } else {
            natives := natives[param.value := Held(scalar, Reg(param.value, 0))];
            r := Ok(arguments + [Reg(param.value, 0)]);
          }
      }
    }

    /** Binds each parameter to its position. */
    method BindParameters(f: Function, ghost c: Context)
      returns (r: Lowered<seq<Register>>)
      requires ParametersDeclared(f, c) && natives == map[]
      modifies this`natives
      ensures r == Ok(ArgumentsOf(f.params))
      ensures Holding(natives, NativesOf(c), ParameterValues(f))
    {
      var arguments: seq<Register> := [];
      for i := 0 to |f.params|
        invariant arguments == ArgumentsOf(f.params[..i]) && Bound(natives, f, c, i)
      {
        OneMoreBound(natives, f, c, i);
        r := BindParameter(f.params[i], arguments);
        if r.Err? { return; }
        arguments := r.value;
      }
      assert f.params[..|f.params|] == f.params;
      r := Ok(arguments);
    }
  }

  /** `natives` holds exactly the first `i` parameters. */
  ghost predicate Bound(natives: Natives, f: Function, c: Context, i: nat) {
    && i <= |f.params|
    && (forall v :: v in natives ==> v in c.types && natives[v] == NativesOf(c)[v] && v in ParameterValues(f))
    && (forall j :: 0 <= j < i ==> f.params[j].value in natives)
  }

  lemma OneMoreBound(natives: Natives, f: Function, c: Context, i: nat)
    requires ParametersDeclared(f, c) && Bound(natives, f, c, i) && i < |f.params|
    ensures ScalarOf(f.params[i].ty).Some?
    ensures Bound(natives[f.params[i].value := NativeFor(false, ScalarOf(f.params[i].ty).value, f.params[i].value)],
                  f, c, i + 1)
    ensures ArgumentsOf(f.params[..i + 1])
            == ArgumentsOf(f.params[..i])
               + if ScalarOf(f.params[i].ty) == Some(UnitScalar) then [] else [Reg(f.params[i].value, 0)]
  {
    assert f.params[..i + 1][..i] == f.params[..i];
    assert ParameterIsDeclared(c, f.params[i]);
  }

  /** The first `i` instructions of a block are filled in, and could be; `natives` holds what is known after them. */
  ghost predicate Filling(start: Builder, b: Builder, natives: Natives, full: Natives, targets: Functions,
                          ids: set<BlockId>, known: Values, block: BasicBlock, i: nat)
  {
    && i <= |block.instructions|
    && Emit(b, StepsOf(full, targets, block), ExitOf(full, ids, block), i)
       == Emit(start, StepsOf(full, targets, block), ExitOf(full, ids, block), 0)
    && Holding(natives, full, known + DefinedIn(block.instructions[..i]))
    && forall k {:trigger PositionFits(known, block, k)} :: 0 <= k < i ==> PositionFits(known, block, k)
  }

  lemma StartsFilling(start: Builder, natives: Natives, full: Natives, targets: Functions, ids: set<BlockId>,
                      known: Values, block: BasicBlock)
    requires Holding(natives, full, known)
    ensures Filling(start, start, natives, full, targets, ids, known, block, 0)
  {
  }

  lemma InstructionsFilled(start: Builder, b: Builder, natives: Natives, full: Natives, targets: Functions,
                           ids: set<BlockId>, known: Values, block: BasicBlock)
    requires BlockLowers(full, targets, ids, block)
    requires Filling(start, b, natives, full, targets, ids, known, block, |block.instructions|)
    ensures Holding(natives, full, known + DefinedIn(block.instructions))
    ensures BlockFits(known, block) <==> ExitKnown(known, block)
    ensures b.code[b.current := BlockCode(b.open, ExitOf(full, ids, block))]
            == Emit(start, StepsOf(full, targets, block), ExitOf(full, ids, block), 0)
    ensures var code := ExitCode(natives, ids, block.terminator);
            && (ExitKnown(known, block) ==> code == Ok(ExitOf(full, ids, block)))
            && (!ExitKnown(known, block) ==> code.Err? && StoppedIn(known, block, code.error))
  {
    assert block.instructions[..|block.instructions|] == block.instructions;
    ExitDecided(natives, full, targets, ids, known, block);
    if ExitKnown(known, block) {
      forall i
        ensures PositionFits(known, block, i)
      {
      }
    }
  }

  /** The first `k` blocks of the order are filled, and could be; `natives` holds what is known after them. */
  ghost predicate FillingOrder(start: map<Label, BlockCode>, code: map<Label, BlockCode>, natives: Natives,
                               full: Natives, targets: Functions, ids: set<BlockId>, blocks: Blocks,
                               parameters: Values, order: seq<BlockId>, k: nat)
  {
    && k <= |order|
    && Holding(natives, full, KnownBefore(blocks, parameters, order, k))
    && code == FilledWithAll(start, full, targets, ids, blocks, order, k)
    && forall j {:trigger order[j]} :: 0 <= j < k && order[j] in blocks ==>
         BlockFits(KnownBefore(blocks, parameters, order, j), blocks[order[j]])
  }

  lemma OneMoreInOrder(start: map<Label, BlockCode>, before: map<Label, BlockCode>, after: map<Label, BlockCode>,
                       natives: Natives, full: Natives, targets: Functions, ids: set<BlockId>, blocks: Blocks,
                       parameters: Values, order: seq<BlockId>, k: nat)
    requires k < |order| && order[k] in blocks
    requires before == FilledWithAll(start, full, targets, ids, blocks, order, k)
    requires forall j {:trigger order[j]} :: 0 <= j < k && order[j] in blocks ==>
               BlockFits(KnownBefore(blocks, parameters, order, j), blocks[order[j]])
    requires BlockFits(KnownBefore(blocks, parameters, order, k), blocks[order[k]])
    requires after == FilledWith(before, full, targets, ids, blocks[order[k]])
    requires Holding(natives, full,
                     KnownBefore(blocks, parameters, order, k) + DefinedIn(blocks[order[k]].instructions))
    ensures FillingOrder(start, after, natives, full, targets, ids, blocks, parameters, order, k + 1)
  {
  }

  /** Filling the blocks of the order stopped in the `k`-th. */
  ghost predicate StoppedAt(blocks: Blocks, parameters: Values, order: seq<BlockId>, k: nat, error: LoweringError) {
    k < |order| && order[k] in blocks && StoppedIn(KnownBefore(blocks, parameters, order, k), blocks[order[k]], error)
  }

  /** One block filled on top of the code before it. */
  function FilledWith(code: map<Label, BlockCode>, full: Natives, targets: Functions, ids: set<BlockId>,
                      block: BasicBlock)
    : map<Label, BlockCode>
  {
    Emit(Builder(code, Main(block.id), []), StepsOf(full, targets, block), ExitOf(full, ids, block), 0)
  }

  /** The first `k` blocks of the order filled, one after another. */
  function FilledWithAll(code: map<Label, BlockCode>, full: Natives, targets: Functions, ids: set<BlockId>,
                         blocks: Blocks,
                         order: seq<BlockId>, k: nat): map<Label, BlockCode>
    requires k <= |order|
  {
    if k == 0 then code
    else
      var before := FilledWithAll(code, full, targets, ids, blocks, order, k - 1);
      if order[k - 1] in blocks then FilledWith(before, full, targets, ids, blocks[order[k - 1]]) else before
  }

  lemma HoldsOneMore(before: Natives, after: Natives, full: Natives, known: Values, block: BasicBlock, i: nat)
    requires i < |block.instructions| && Holding(before, full, known + DefinedIn(block.instructions[..i]))
    requires var instruction := block.instructions[i];
             if instruction.Value? then
               instruction.result in full && after == before[instruction.result := full[instruction.result]]
             else after == before
    ensures Holding(after, full, known + DefinedIn(block.instructions[..i + 1]))
  {
    assert forall j :: 0 <= j < i ==> block.instructions[..i + 1][j] == block.instructions[..i][j];
  }

  predicate ParameterIsDeclared(c: Context, param: Param) {
    param.value in c.types && param.value !in c.slots && c.types[param.value] == param.ty && ScalarOf(param.ty).Some?
  }

  ghost predicate ParametersDeclared(f: Function, c: Context) {
    forall i {:trigger f.params[i]} :: 0 <= i < |f.params| ==> ParameterIsDeclared(c, f.params[i])
  }

  lemma ReadyParameters(functions: Functions, targets: Functions, f: Function, c: Context)
    requires Ready(functions, targets, f, c)
    ensures ParametersDeclared(f, c)
  {
    forall i | 0 <= i < |f.params|
      ensures ParameterIsDeclared(c, f.params[i])
    {
      assert f.params[i] in f.params;
      ParameterDeclared(functions, f, c, f.params[i].value);
    }
  }

  ghost predicate PrologueDone(code: map<Label, BlockCode>) {
    Prologue in code && code[Prologue] == BlockCode([], Jump(Main(ENTRY_BLOCK)))
  }

  /** The blocks of the emission order exist, under their own ids. */
  ghost predicate Emittable(c: Context, order: seq<BlockId>) {
    forall k {:trigger order[k]} :: 0 <= k < |order| ==>
      order[k] in c.blocks && c.blocks[order[k]].id == order[k] && BlockReachable(c.blocks, order[k])
  }

  ghost predicate FilledUpTo(c: Context, targets: Functions, ids: set<BlockId>, order: seq<BlockId>, k: nat,
                             code: map<Label, BlockCode>)
  {
    forall j {:trigger order[j]} :: 0 <= j < k && j < |order| ==>
      order[j] in c.blocks && CodeEmitted(c, targets, ids, code, order[j])
  }

  lemma OneMoreFilled(c: Context, targets: Functions, ids: set<BlockId>, order: seq<BlockId>, k: nat,
                      before: map<Label, BlockCode>, after: map<Label, BlockCode>)
    requires SingleDefinitions(c.current, c.blocks) && NoRepeats(order) && Emittable(c, order) && k < |order|
    requires FilledUpTo(c, targets, ids, order, k, before) && PrologueDone(before)
    requires after == FilledWith(before, NativesOf(c), targets, ids, c.blocks[order[k]])
    ensures FilledUpTo(c, targets, ids, order, k + 1, after) && PrologueDone(after)
  {
    BlockFilled(c, targets, ids, order[k], before, after);
    assert !CreatedFrom(StepsOf(NativesOf(c), targets, c.blocks[order[k]]), 0, Prologue);
    forall j | 0 <= j < k
      ensures CodeEmitted(c, targets, ids, after, order[j])
    {
      assert order[j] in c.blocks;
      EarlierBlockStays(c, targets, ids, order[j], order[k], before, after);
    }
  }

  lemma OneMoreKept(c: Context, targets: Functions, ids: set<BlockId>, order: seq<BlockId>, k: nat)
    requires SingleDefinitions(c.current, c.blocks) && NoRepeats(order) && Emittable(c, order)
    ensures FillingKeeps(FilledSoFar(c, targets, ids, order), c, targets, ids, order, PROLOGUE_CODE, k)
  {
    if k < |order| {
      var before := FilledWithAll(PROLOGUE_CODE, NativesOf(c), targets, ids, c.blocks, order, k);
      var after := FilledWithAll(PROLOGUE_CODE, NativesOf(c), targets, ids, c.blocks, order, k + 1);
      assert order[k] in c.blocks;
      if FilledSoFar(c, targets, ids, order)(k, before) {
        OneMoreFilled(c, targets, ids, order, k, before, after);
      }
    }
  }

  /** What holds of the code once the first `k` blocks of the order are filled. */
  ghost function FilledSoFar(c: Context, targets: Functions, ids: set<BlockId>, order: seq<BlockId>)
    : (nat, map<Label, BlockCode>) -> bool
  {
    (k: nat, code: map<Label, BlockCode>) => FilledUpTo(c, targets, ids, order, k, code) && PrologueDone(code)
  }

  /** Filling the block at position `k` takes what `holds` one block further. */
  ghost predicate FillingKeeps(holds: (nat, map<Label, BlockCode>) -> bool, c: Context, targets: Functions,
                               ids: set<BlockId>, order: seq<BlockId>, code: map<Label, BlockCode>, k: nat)
  {
    k < |order| && holds(k, FilledWithAll(code, NativesOf(c), targets, ids, c.blocks, order, k)) ==>
      holds(k + 1, FilledWithAll(code, NativesOf(c), targets, ids, c.blocks, order, k + 1))
  }

  lemma {:induction false} AllFilled(holds: (nat, map<Label, BlockCode>) -> bool, c: Context, targets: Functions,
                                     ids: set<BlockId>, order: seq<BlockId>, code: map<Label, BlockCode>, k: nat)
    requires holds(0, code) && k <= |order|
    requires forall j {:trigger FillingKeeps(holds, c, targets, ids, order, code, j)} ::
               FillingKeeps(holds, c, targets, ids, order, code, j)
    ensures holds(k, FilledWithAll(code, NativesOf(c), targets, ids, c.blocks, order, k))
    decreases k
  {
    if k > 0 {
      AllFilled(holds, c, targets, ids, order, code, k - 1);
      assert FillingKeeps(holds, c, targets, ids, order, code, k - 1);
    }
  }

  lemma OrderIsEmittable(f: Function, c: Context, reachable: seq<BlockId>, order: seq<BlockId>)
    requires ContextOk(c) && Order(c, reachable, order) && c.blocks == BlockMap(f.blocks)
    ensures Emittable(c, order) && Members(order) == Members(reachable)
    ensures forall b :: b in order <==> BlockReachable(c.blocks, b)
  {
    OrderIsPlanned(c, reachable, order);
    ReachableBlocksExist(c.blocks, reachable);
    forall k | 0 <= k < |order|
      ensures order[k] in c.blocks && c.blocks[order[k]].id == order[k] && BlockReachable(c.blocks, order[k])
    {
      BlockMapHolds(f.blocks, order[k]);
      assert order[k] in order;
    }
  }

  /** Lowers one function's body: its prologue, then its planned blocks, dominators first. It succeeds exactly when the
      constants fit and, in the order of emission, every `alloc` comes before what uses its slot. */
  method LowerBody(targets: Functions, f: Function, reachable: seq<BlockId>, ghost functions: Functions,
                   ghost c: Context)
    returns (r: Lowered<(seq<Register>, map<Label, BlockCode>)>)
    requires Ready(functions, targets, f, c) && AreReachableBlocks(c.blocks, reachable)
    ensures r.Ok? <==> BodyLowers(c.blocks, reachable)
    ensures Verified(f) ==> r.Ok?
    ensures r.Ok? ==> r.value.0 == ArgumentsOf(f.params) && IsLoweredBody(c, targets, Members(reachable), r.value.1)
    ensures r.Err? ==> Stopped(c.blocks, r.error)
  {
    var blocks := BlockMap(f.blocks);
    ReachableBlocksExist(blocks, reachable);
    var planned := ReversePostorder(blocks, reachable);
    match planned {
      case Err(id) => r := Err(BlockNeverCreated(id));
      case Ok(order) => r := LowerOrdered(targets, f, reachable, order, functions, c);
    }
  }

  /** What lowering a body the native checks accepted still depends on. */
  ghost predicate BodyLowers(blocks: Blocks, reachable: seq<BlockId>) {
    ConstantsFit(blocks) && AllocsFirst(blocks, EmissionOrder(blocks, reachable))
  }

  method LowerOrdered(targets: Functions, f: Function, reachable: seq<BlockId>, order: seq<BlockId>,
                      ghost functions: Functions, ghost c: Context)
    returns (r: Lowered<(seq<Register>, map<Label, BlockCode>)>)
    requires Ready(functions, targets, f, c) && Order(c, reachable, order)
    ensures r.Ok? <==> ConstantsFit(c.blocks) && AllocsFirst(c.blocks, order)
    ensures Verified(f) ==> r.Ok?
    ensures r.Ok? ==> r.value.0 == ArgumentsOf(f.params) && IsLoweredBody(c, targets, Members(reachable), r.value.1)
    ensures r.Err? ==> Stopped(c.blocks, r.error)
  {
    OrderIsEmittable(f, c, reachable, order);
    ReadyParameters(functions, targets, f, c);
    AcceptedOrderLowers(functions, targets, f, c, reachable, order);
    OrderFitsExactly(functions, targets, f, c, reachable, order);
    if Verified(f) {
      DominatingAllocsAreFirst(c, reachable, order);
    }
    EntryExists(c, order);
    r := FillBody(targets, Members(order), f, order, c);
    match r {
      case Ok(_) => OrderFilled(c, targets, Members(order), order, r.value.1);
      case Err(error) =>
        ghost var k: nat :| StoppedAt(c.blocks, ParameterValues(f), order, k, error);
        StoppedAtSlotOrConstant(c, reachable, order, k, error);
    }
  }

  lemma EntryExists(c: Context, order: seq<BlockId>)
    requires ENTRY_BLOCK in c.blocks && forall b :: b in order <==> BlockReachable(c.blocks, b)
    ensures ENTRY_BLOCK in Members(order)
  {
    ReachSelf(Cfg(c.blocks), ENTRY_BLOCK);
  }

  const PROLOGUE_CODE: map<Label, BlockCode> := map[Prologue := BlockCode([], Jump(Main(ENTRY_BLOCK)))]

  method FillBody(targets: Functions, ids: set<BlockId>, f: Function, order: seq<BlockId>, ghost c: Context)
    returns (r: Lowered<(seq<Register>, map<Label, BlockCode>)>)
    requires OrderLowers(NativesOf(c), targets, ids, c.blocks, order)
    requires ParametersDeclared(f, c) && c.blocks == BlockMap(f.blocks) && ENTRY_BLOCK in ids
    ensures r.Ok? <==> OrderFits(c.blocks, ParameterValues(f), order)
    ensures r.Ok? ==> r.value.0 == ArgumentsOf(f.params)
    ensures r.Ok? ==>
              r.value.1 == FilledWithAll(PROLOGUE_CODE, NativesOf(c), targets, ids, c.blocks, order, |order|)
    ensures r.Err? ==> exists k: nat :: StoppedAt(c.blocks, ParameterValues(f), order, k, r.error)
  {
    var lowerer := new BodyLowerer(targets, ids);
    var arguments := lowerer.BindParameters(f, c);
    match BlockLabel(ids, ENTRY_BLOCK) {
      case Err(error) => return Err(error);
      case Ok(entry) => lowerer.Finish(Jump(entry));
    }
    assert lowerer.code == PROLOGUE_CODE;
    var filled := lowerer.LowerBlocks(order, BlockMap(f.blocks), NativesOf(c), ParameterValues(f));
    match filled {
      case Err(error) => r := Err(error);
      case Ok(_) => r := Ok((arguments.value, lowerer.code));
    }
  }

  lemma OrderFilled(c: Context, targets: Functions, ids: set<BlockId>, order: seq<BlockId>, code: map<Label, BlockCode>)
    requires SingleDefinitions(c.current, c.blocks) && NoRepeats(order) && Emittable(c, order)
    requires forall b :: b in order <==> BlockReachable(c.blocks, b)
    requires code == FilledWithAll(PROLOGUE_CODE, NativesOf(c), targets, ids, c.blocks, order, |order|)
    ensures IsLoweredBody(c, targets, ids, code)
  {
    var holds := FilledSoFar(c, targets, ids, order);
    forall k
      ensures FillingKeeps(holds, c, targets, ids, order, PROLOGUE_CODE, k)
    {
      OneMoreKept(c, targets, ids, order, k);
    }
    assert PrologueDone(PROLOGUE_CODE);
    AllFilled(holds, c, targets, ids, order, PROLOGUE_CODE, |order|);
    AllBlocksEmitted(c, targets, ids, order, code);
  }

  lemma AllBlocksEmitted(c: Context, targets: Functions, ids: set<BlockId>, order: seq<BlockId>,
                         code: map<Label, BlockCode>)
    requires forall b :: b in order <==> BlockReachable(c.blocks, b)
    requires PrologueDone(code) && FilledUpTo(c, targets, ids, order, |order|, code)
    ensures IsLoweredBody(c, targets, ids, code)
  {
    forall b
      ensures PlannedBlockEmitted(c, targets, ids, code, b)
    {
    }
  }

  /** The planned functions by id, as the module declares them. */
  method IndexFunctions(m: Module, plan: NativePlan) returns (targets: Functions)
    requires DistinctFunctionIds(m.functions)
    ensures targets == Planned(FunctionMap(m.functions), plan.functions)
  {
    targets := map[];
    for i := 0 to |m.functions|
      invariant forall id :: id in targets <==>
                id in plan.functions && exists j :: 0 <= j < i && m.functions[j].id == id
      invariant forall j :: 0 <= j < i && m.functions[j].id in plan.functions ==>
                              m.functions[j].id in targets && targets[m.functions[j].id] == m.functions[j]
    {
      if m.functions[i].id in plan.functions {
        targets := targets[m.functions[i].id := m.functions[i]];
      }
    }
    forall id
      ensures id in targets <==> id in Planned(FunctionMap(m.functions), plan.functions)
      ensures id in targets && id in FunctionMap(m.functions) ==> targets[id] == FunctionMap(m.functions)[id]
    {
      FunctionMapHolds(m.functions, id);
    }
  }

  /** What is known of a planned function before it is lowered. */
  ghost predicate Lowerable(functions: Functions, plan: NativePlan, targets: Functions, id: ItemId) {
    && id in functions && id in targets && targets[id] == functions[id] && id in plan.reachableBlocks
    && SignatureOf(functions[id]).Ok?
    && BodyOk(functions, functions[id])
    && Ready(functions, targets, functions[id], ContextOf(functions, functions[id]))
    && AreReachableBlocks(BlockMap(functions[id].blocks), plan.reachableBlocks[id])
  }

  ghost predicate AllLowerable(functions: Functions, plan: NativePlan, targets: Functions) {
    forall id {:trigger Lowerable(functions, plan, targets, id)} ::
      id in plan.functions ==> Lowerable(functions, plan, targets, id)
  }

  /** A signature for every planned function, which is all a call of it needs. */
  method DeclareFunctions(plan: NativePlan, targets: Functions, ghost functions: Functions)
    returns (r: Lowered<map<ItemId, Signature>>)
    requires AllLowerable(functions, plan, targets)
    ensures r.Ok? && forall i {:trigger plan.functions[i]} :: 0 <= i < |plan.functions| ==>
                        Declared(targets, r.value, plan.functions[i])
  {
    var declared: map<ItemId, Signature> := map[];
    for i := 0 to |plan.functions|
      invariant forall j :: 0 <= j < i ==> Declared(targets, declared, plan.functions[j])
    {
      var id := plan.functions[i];
      LowerableSignature(functions, plan, targets, id);
      if id !in targets { return Err(UndeclaredFunction(id)); }
      match SignatureOf(targets[id]) {
        case Err(error) => return Err(error);
        case Ok(signature) => declared := declared[id := signature];
      }
    }
    r := Ok(declared);
  }

  predicate Declared(targets: Functions, declared: map<ItemId, Signature>, id: ItemId) {
    id in targets && id in declared && SignatureOf(targets[id]) == Ok(declared[id])
  }

  lemma LowerableSignature(functions: Functions, plan: NativePlan, targets: Functions, id: ItemId)
    requires AllLowerable(functions, plan, targets) && id in plan.functions
    ensures id in targets && SignatureOf(targets[id]).Ok?
  {
    assert Lowerable(functions, plan, targets, id);
  }

  /** Lowers one planned function, given the signatures declared before. */
  method LowerFunction(plan: NativePlan, targets: Functions, declared: map<ItemId, Signature>, id: ItemId,
                       ghost functions: Functions)
    returns (r: Lowered<TargetFunction>)
    requires Lowerable(functions, plan, targets, id) && Declared(targets, declared, id)
    ensures r.Ok? <==> PlannedLowers(functions, plan, id)
    ensures Verified(functions[id]) ==> r.Ok?
    ensures r.Ok? ==> IsLoweredFunction(functions, targets, plan.reachableBlocks[id], functions[id], r.value)
    ensures r.Err? ==> Stopped(BlockMap(functions[id].blocks), r.error)
  {
    ghost var c := ContextOf(functions, functions[id]);
    var body := LowerBody(targets, targets[id], plan.reachableBlocks[id], functions, c);
    match body {
      case Err(error) => r := Err(error);
      case Ok((arguments, code)) => r := Ok(TargetFunction(declared[id], arguments, code));
    }
  }

  ghost predicate PlannedLowers(functions: Functions, plan: NativePlan, id: ItemId) {
    && id in functions && id in plan.reachableBlocks
    && BodyLowers(BlockMap(functions[id].blocks), plan.reachableBlocks[id])
  }

  ghost predicate AllPlannedLower(functions: Functions, plan: NativePlan) {
    forall id :: id in plan.functions ==> PlannedLowers(functions, plan, id)
  }

  /** Lowering the planned function `id` stopped. */
  ghost predicate StoppedInFunction(functions: Functions, plan: NativePlan, id: ItemId, error: LoweringError) {
    id in plan.functions && id in functions && !PlannedLowers(functions, plan, id)
    && Stopped(BlockMap(functions[id].blocks), error)
  }

  /** A planned function is lowered, and could be. */
  ghost function Finished(functions: Functions, plan: NativePlan, targets: Functions)
    : (ItemId, TargetFunction) -> bool
  {
    (id: ItemId, target: TargetFunction) =>
      FunctionLowered(functions, plan, targets, id, target) && PlannedLowers(functions, plan, id)
  }

  /** `program` has exactly the first `i` of `ids`, and what it has is finished. */
  ghost predicate LoweredUpTo(finished: (ItemId, TargetFunction) -> bool, ids: seq<ItemId>, program: Program, i: nat) {
    && i <= |ids|
    && (forall id :: id in program <==> id in ids[..i])
    && (forall id :: id in program ==> finished(id, program[id]))
  }

  lemma OneMoreLowered(finished: (ItemId, TargetFunction) -> bool, ids: seq<ItemId>, program: Program, i: nat,
                       target: TargetFunction)
    requires LoweredUpTo(finished, ids, program, i) && i < |ids| && finished(ids[i], target)
    ensures LoweredUpTo(finished, ids, program[ids[i] := target], i + 1)
  {
    assert ids[..i + 1] == ids[..i] + [ids[i]];
  }

  lemma AllLowered(functions: Functions, plan: NativePlan, targets: Functions, program: Program)
    requires LoweredUpTo(Finished(functions, plan, targets), plan.functions, program, |plan.functions|)
    ensures AllPlannedLower(functions, plan)
    ensures forall id :: id in program <==> id in plan.functions
    ensures forall id :: id in program ==> FunctionLowered(functions, plan, targets, id, program[id])
  {
    var finished := Finished(functions, plan, targets);
    assert plan.functions[..|plan.functions|] == plan.functions;
    forall id | id in program
      ensures FunctionLowered(functions, plan, targets, id, program[id]) && PlannedLowers(functions, plan, id)
    {
      assert finished(id, program[id]);
    }
  }

  ghost predicate AllVerified(functions: Functions, plan: NativePlan) {
    forall id :: id in plan.functions && id in functions ==> Verified(functions[id])
  }

  /** Lowers the planned function after the first `i`. */
  method LowerOneMore(plan: NativePlan, targets: Functions, declared: map<ItemId, Signature>, i: nat,
                      before: Program, ghost functions: Functions)
    returns (r: Lowered<Program>)
    requires AllLowerable(functions, plan, targets) && i < |plan.functions|
    requires Declared(targets, declared, plan.functions[i])
    requires LoweredUpTo(Finished(functions, plan, targets), plan.functions, before, i)
    ensures r.Ok? ==> LoweredUpTo(Finished(functions, plan, targets), plan.functions, r.value, i + 1)
    ensures r.Err? ==> !AllPlannedLower(functions, plan) && !AllVerified(functions, plan)
    ensures r.Err? ==> StoppedInFunction(functions, plan, plan.functions[i], r.error)
  {
    var id := plan.functions[i];
    assert Lowerable(functions, plan, targets, id);
    var target := LowerFunction(plan, targets, declared, id, functions);
    match target {
      case Err(error) => r := Err(error);
      case Ok(code) =>
        OneMoreLowered(Finished(functions, plan, targets), plan.functions, before, i, code);
        r := Ok(before[id := code]);
    }
  }

  method LowerFunctions(plan: NativePlan, targets: Functions, declared: map<ItemId, Signature>,
                        ghost functions: Functions)
    returns (r: Lowered<Program>)
    requires AllLowerable(functions, plan, targets)
    requires forall i {:trigger plan.functions[i]} :: 0 <= i < |plan.functions| ==>
               Declared(targets, declared, plan.functions[i])
    ensures r.Ok? <==> AllPlannedLower(functions, plan)
    ensures AllVerified(functions, plan) ==> r.Ok?
    ensures r.Ok? ==> LoweredUpTo(Finished(functions, plan, targets), plan.functions, r.value, |plan.functions|)
    ensures r.Err? ==> exists i :: 0 <= i < |plan.functions|
                                   && StoppedInFunction(functions, plan, plan.functions[i], r.error)
  {
    r := Ok(map[]);
    for i := 0 to |plan.functions|
      invariant r.Ok? && LoweredUpTo(Finished(functions, plan, targets), plan.functions, r.value, i)
    {
      r := LowerOneMore(plan, targets, declared, i, r.value, functions);
      if r.Err? { return; }
    }
    AllLowered(functions, plan, targets, r.value);
  }

  /** Lowering a validated plan takes no error path exactly when, in every planned function, the constants fit and the
      `alloc`s are emitted before what uses their slots, which NIR verification guarantees; each planned function then
      has its code. */
  method LowerProgram(m: Module, plan: NativePlan, ghost build: Build) returns (r: Lowered<Program>)
    requires InSubset(m, build, plan.entry) && IsPlan(m, plan.entry, plan)
    ensures r.Ok? <==> AllPlannedLower(FunctionMap(m.functions), plan)
    ensures Accepted(m, build, plan.entry) ==> r.Ok?
    ensures r.Ok? ==> IsLoweredProgram(FunctionMap(m.functions), plan, r.value)
    ensures r.Err? ==> exists i :: 0 <= i < |plan.functions|
                                   && StoppedInFunction(FunctionMap(m.functions), plan, plan.functions[i], r.error)
  {
    ghost var functions := FunctionMap(m.functions);
    AcceptedIds(m, build, plan.entry);
    var targets := IndexFunctions(m, plan);
    EveryPlannedReady(m, build, plan);
    var declared := DeclareFunctions(plan, targets, functions);
    match declared {
      case Err(error) => r := Err(error);
      case Ok(signatures) =>
        r := LowerFunctions(plan, targets, signatures, functions);
        PlanIsVerified(m, build, plan);
        if r.Ok? {
          ProgramLowered(functions, plan, r.value);
        }
    }
  }

  lemma PlanIsVerified(m: Module, build: Build, plan: NativePlan)
    requires IsPlan(m, plan.entry, plan)
    ensures Accepted(m, build, plan.entry) ==> AllVerified(FunctionMap(m.functions), plan)
  {
  }

  lemma EveryPlannedReady(m: Module, build: Build, plan: NativePlan)
    requires InSubset(m, build, plan.entry) && IsPlan(m, plan.entry, plan)
    ensures AllLowerable(FunctionMap(m.functions), plan, Planned(FunctionMap(m.functions), plan.functions))
  {
    forall id | id in plan.functions
      ensures Lowerable(FunctionMap(m.functions), plan, Planned(FunctionMap(m.functions), plan.functions), id)
    {
      PlannedReady(m, build, plan, id);
    }
  }

  lemma ProgramLowered(functions: Functions, plan: NativePlan, program: Program)
    requires LoweredUpTo(Finished(functions, plan, Planned(functions, plan.functions)), plan.functions, program,
                         |plan.functions|)
    ensures IsLoweredProgram(functions, plan, program)
  {
    AllLowered(functions, plan, Planned(functions, plan.functions), program);
  }

  lemma AcceptedIds(m: Module, build: Build, entry: ItemId)
    requires InSubset(m, build, entry)
    ensures DistinctFunctionIds(m.functions)
  {
  }

  lemma PlannedReady(m: Module, build: Build, plan: NativePlan, id: ItemId)
    requires InSubset(m, build, plan.entry) && IsPlan(m, plan.entry, plan) && id in plan.functions
    ensures var functions := FunctionMap(m.functions);
            var targets := Planned(functions, plan.functions);
            Lowerable(functions, plan, targets, id)
  {
    var functions := FunctionMap(m.functions);
    AcceptedIsReady(m, build, plan.entry, plan, id);
    SignatureExists(functions[id]);
    PlanHasBlocks(m, plan, id);
  }

  lemma PlanHasBlocks(m: Module, plan: NativePlan, id: ItemId)
    requires IsPlan(m, plan.entry, plan) && id in plan.functions && id in FunctionMap(m.functions)
    ensures id in plan.reachableBlocks
    ensures AreReachableBlocks(BlockMap(FunctionMap(m.functions)[id].blocks), plan.reachableBlocks[id])
  {
  }

  lemma SignatureExists(f: Function)
    requires CheckParameters(f.params) == None && ScalarOf(f.returnType).Some?
    ensures SignatureOf(f).Ok?
  {
    ParameterTypesExist(f.params);
  }

  lemma {:induction false} ParameterTypesExist(params: seq<Param>)
    requires forall p :: p in params ==> ScalarOf(p.ty).Some?
    ensures ParameterTypes(params).Ok?
  {
    if params != [] {
      ParameterTypesExist(params[..|params| - 1]);
    }
  }

  lemma {:induction false} ArgumentErrorStays(natives: Natives, args: seq<ValueId>, n: nat)
    requires n <= |args| && ArgumentRegisters(natives, args[..n]).Err?
    ensures ArgumentRegisters(natives, args) == ArgumentRegisters(natives, args[..n])
    decreases |args| - n
  {
    if n == |args| {
      assert args[..n] == args;
    } else {
      assert args[..n + 1][..n] == args[..n];
      ArgumentErrorStays(natives, args, n + 1);
    }
  }
}
