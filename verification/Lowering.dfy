/** Code generation: what each NIR instruction and terminator becomes. */
module Lowering {
  import opened Wrappers
  import opened Numeric
  import opened Nir
  import opened TargetIr

  /** What a NIR value became. A `unit` slot has no variable, and a `unit` value is nothing at all. */
  datatype Native =
    | NativeInt(register: Register)
    | NativeBool(register: Register)
    | NativeUnit
    | NativeSlot(variable: Option<ValueId>, scalar: Scalar)

  type Natives = map<ValueId, Native>

  datatype LoweringError =
    | UsedBeforeLowered(value: ValueId)
    | NotAnI64(value: ValueId)
    | NotABool(value: ValueId)
    | NotASlot(value: ValueId)
    | SlotAsArgument(value: ValueId)
    | CannotHold(slot: ValueId)
    | CannotInvert(value: ValueId)
    | NotComparable(left: ValueId, right: ValueId)
    | NotAnInteger(literal: int)
    | AbsentCallee(callee: ItemId)
    | UnsupportedByBackend
    | BlockNeverCreated(block: BlockId)
    | UndeclaredFunction(id: ItemId)

  /** The machine type a scalar is held in; `unit` occupies no position. */
  function AbiType(scalar: Scalar): Option<WordType> {
    match scalar
    case IntScalar => Some(I64Type)
    case BoolScalar => Some(I8Type)
    case UnitScalar => None
  }

  /** The flag a checked operation leaves, the operation that failed when it is set, and the value it computes. */
  datatype Guard = Guard(op: CheckedOp, flag: Register, value: ValueId)

  /** The code of one value: what it becomes, the instructions, and the guard that ends them if it has one. */
  datatype Fragment = Fragment(native: Native, insts: seq<Inst>, guard: Option<Guard>)

  type Lowered<T> = Result<T, LoweringError>

  function Lookup(natives: Natives, v: ValueId): Lowered<Native> {
    if v in natives then Ok(natives[v]) else Err(UsedBeforeLowered(v))
  }

  function IntegerOf(natives: Natives, v: ValueId): Lowered<Register> {
    match Lookup(natives, v)
    case Ok(NativeInt(register)) => Ok(register)
    case Ok(_) => Err(NotAnI64(v))
    case Err(error) => Err(error)
  }

  function BooleanOf(natives: Natives, v: ValueId): Lowered<Register> {
    match Lookup(natives, v)
    case Ok(NativeBool(register)) => Ok(register)
    case Ok(_) => Err(NotABool(v))
    case Err(error) => Err(error)
  }

  function Plain(native: Native, insts: seq<Inst>): Lowered<Fragment> {
    Ok(Fragment(native, insts, None))
  }

  function Held(scalar: Scalar, register: Register): Native {
    match scalar
    case IntScalar => NativeInt(register)
    case BoolScalar => NativeBool(register)
    case UnitScalar => NativeUnit
  }

  function ConstantCode(result: ValueId, value: Const): Lowered<Fragment> {
    var r := Reg(result, 0);
    match value
    case IntConst(literal) =>
      if InI64(literal) then Plain(NativeInt(r), [Iconst(r, I64(literal))]) else Err(NotAnInteger(literal))
    case BoolConst(flag) => Plain(NativeBool(r), [Iconst(r, Flag(flag))])
    case UnitConst => Plain(NativeUnit, [])
    case OtherConst(_) => Err(UnsupportedByBackend)
  }

  function LoadCode(natives: Natives, result: ValueId, slot: ValueId): Lowered<Fragment> {
    match Lookup(natives, slot)
    case Ok(NativeSlot(None, _)) => Plain(NativeUnit, [])
    case Ok(NativeSlot(Some(variable), scalar)) =>
      Plain(Held(scalar, Reg(result, 0)), [UseVar(Reg(result, 0), variable)])
    case Ok(_) => Err(NotASlot(slot))
    case Err(error) => Err(error)
  }

  /** The sign of `(a1 ^ b1) & (a2 ^ b2)`, left in the flag of `v`. */
  function SignTestInsts(v: ValueId, a1: Register, b1: Register, a2: Register, b2: Register): seq<Inst> {
    [Bits(Reg(v, 1), Xor, a1, b1),
     Bits(Reg(v, 2), Xor, a2, b2),
     Bits(Reg(v, 3), And, Reg(v, 1), Reg(v, 2)),
     IcmpImm(Reg(v, 4), SignedLess, Reg(v, 3), 0)]
  }

  /** The wrapped operation followed by its exact overflow test. */
  function CheckedInsts(op: CheckedOp, v: ValueId, left: Register, right: Register): seq<Inst> {
    match op
    case AddOp => [Arith(Reg(v, 0), Iadd, left, right)] + SignTestInsts(v, left, Reg(v, 0), right, Reg(v, 0))
    case SubOp => [Arith(Reg(v, 0), Isub, left, right)] + SignTestInsts(v, left, right, left, Reg(v, 0))
    case MulOp => [Arith(Reg(v, 0), Imul, left, right),
                   Arith(Reg(v, 1), Smulhi, left, right),
                   SshrImm(Reg(v, 2), Reg(v, 0), MAGNITUDE_BITS),
                   Icmp(Reg(v, 4), NotEqual, Reg(v, 1), Reg(v, 2))]
    case NegOp => [Ineg(Reg(v, 0), left),
                   IcmpImm(Reg(v, 4), Equal, left, I64_MIN)]
  }

  function CheckedFragment(op: CheckedOp, v: ValueId, left: Register, right: Register): Fragment {
    Fragment(NativeInt(Reg(v, 0)), CheckedInsts(op, v, left, right), Some(Guard(op, Reg(v, 4), v)))
  }

  function CheckedCode(natives: Natives, op: CheckedOp, result: ValueId, a: ValueId, b: ValueId): Lowered<Fragment> {
    match (IntegerOf(natives, a), IntegerOf(natives, b))
    case (Ok(left), Ok(right)) => Ok(CheckedFragment(op, result, left, right))
    case (Err(error), _) => Err(error)
    case (_, Err(error)) => Err(error)
  }

  /** Negation has a test of its own, and is no binary operation. */
  function CheckedBinaryCode(natives: Natives, op: CheckedOp, result: ValueId, a: ValueId,
                             b: ValueId): Lowered<Fragment> {
    match CheckedCode(natives, op, result, a, b)
    case Ok(fragment) => if op == NegOp then Err(UnsupportedByBackend) else Ok(fragment)
    case Err(error) => Err(error)
  }

  function BitsCode(natives: Natives, op: BitOp, result: ValueId, a: ValueId, b: ValueId): Lowered<Fragment> {
    match (IntegerOf(natives, a), IntegerOf(natives, b))
    case (Ok(left), Ok(right)) => Plain(NativeInt(Reg(result, 0)), [Bits(Reg(result, 0), op, left, right)])
    case (Err(error), _) => Err(error)
    case (_, Err(error)) => Err(error)
  }

  function CompareCode(natives: Natives, cc: IntCC, unitAnswer: bool, result: ValueId, a: ValueId,
                       b: ValueId): Lowered<Fragment> {
    var r := Reg(result, 0);
    match (Lookup(natives, a), Lookup(natives, b))
    case (Err(error), _) => Err(error)
    case (_, Err(error)) => Err(error)
    case (Ok(left), Ok(right)) =>
      match (left, right)
      case (NativeUnit, NativeUnit) => Plain(NativeBool(r), [Iconst(r, Flag(unitAnswer))])
      case (NativeInt(x), NativeInt(y)) => Plain(NativeBool(r), [Icmp(r, cc, x, y)])
      case (NativeBool(x), NativeBool(y)) => Plain(NativeBool(r), [Icmp(r, cc, x, y)])
      case _ => Err(NotComparable(a, b))
  }

  /** Integers order signed; booleans order unsigned over 0 and 1. */
  function OrderedCode(natives: Natives, signed: IntCC, unsigned: IntCC, result: ValueId, a: ValueId,
                       b: ValueId): Lowered<Fragment> {
    var r := Reg(result, 0);
    match (Lookup(natives, a), Lookup(natives, b))
    case (Err(error), _) => Err(error)
    case (_, Err(error)) => Err(error)
    case (Ok(left), Ok(right)) =>
      match (left, right)
      case (NativeInt(x), NativeInt(y)) => Plain(NativeBool(r), [Icmp(r, signed, x, y)])
      case (NativeBool(x), NativeBool(y)) => Plain(NativeBool(r), [Icmp(r, unsigned, x, y)])
      case _ => Err(NotComparable(a, b))
  }

  function BinaryCode(natives: Natives, op: BinaryOp, result: ValueId, a: ValueId, b: ValueId): Lowered<Fragment> {
    match op
    case Add => CheckedCode(natives, AddOp, result, a, b)
    case Sub => CheckedCode(natives, SubOp, result, a, b)
    case Mul => CheckedCode(natives, MulOp, result, a, b)
    case BitAnd => BitsCode(natives, And, result, a, b)
    case BitOr => BitsCode(natives, Or, result, a, b)
    case BitXor => BitsCode(natives, Xor, result, a, b)
    case Eq => CompareCode(natives, Equal, true, result, a, b)
    case Ne => CompareCode(natives, NotEqual, false, result, a, b)
    case Lt => OrderedCode(natives, SignedLess, UnsignedLess, result, a, b)
    case Le => OrderedCode(natives, SignedLessOrEqual, UnsignedLessOrEqual, result, a, b)
    case Gt => OrderedCode(natives, SignedGreater, UnsignedGreater, result, a, b)
    case Ge => OrderedCode(natives, SignedGreaterOrEqual, UnsignedGreaterOrEqual, result, a, b)
    case _ => Err(UnsupportedByBackend)
  }

  function NotCode(natives: Natives, result: ValueId, a: ValueId): Lowered<Fragment> {
    var r := Reg(result, 0);
    match Lookup(natives, a)
    case Ok(NativeInt(x)) => Plain(NativeInt(r), [Bnot(r, x)])
    case Ok(NativeBool(x)) => Plain(NativeBool(r), [BxorImm(r, x, 1)])
    case Ok(_) => Err(CannotInvert(a))
    case Err(error) => Err(error)
  }

  /** The registers actually passed: a `unit` argument occupies no position. */
  function ArgumentRegisters(natives: Natives, args: seq<ValueId>): Lowered<seq<Register>> {
    if args == [] then Ok([])
    else
      var last := |args| - 1;
      match (ArgumentRegisters(natives, args[..last]), Lookup(natives, args[last]))
      case (Err(error), _) => Err(error)
      case (_, Err(error)) => Err(error)
      case (Ok(before), Ok(native)) =>
        match native
        case NativeUnit => Ok(before)
        case NativeInt(x) => Ok(before + [x])
        case NativeBool(x) => Ok(before + [x])
        case NativeSlot(_, _) => Err(SlotAsArgument(args[last]))
  }

  function CallCode(natives: Natives, targets: Functions, result: ValueId, callee: ItemId,
                    args: seq<ValueId>): Lowered<Fragment> {
    if callee !in targets then Err(AbsentCallee(callee))
    else
      match (ArgumentRegisters(natives, args), ScalarOf(targets[callee].returnType))
      case (Err(error), _) => Err(error)
      case (Ok(_), None) => Err(UnsupportedByBackend)
      case (Ok(registers), Some(scalar)) =>
        if AbiType(scalar).None? then Plain(NativeUnit, [CallFunction(None, callee, registers)])
        else Plain(Held(scalar, Reg(result, 0)), [CallFunction(Some(Reg(result, 0)), callee, registers)])
  }

  function KindCode(natives: Natives, targets: Functions, result: ValueId, scalar: Scalar,
                    kind: ValueKind): Lowered<Fragment> {
    match kind
    case Alloc => Plain(NativeSlot(if AbiType(scalar).Some? then Some(result) else None, scalar), [])
    case Constant(value) => ConstantCode(result, value)
    case Load(slot) => LoadCode(natives, result, slot)
    case Binary(op, a, b) => BinaryCode(natives, op, result, a, b)
    case Neg(a) => CheckedCode(natives, NegOp, result, a, a)
    case Not(a) => NotCode(natives, result, a)
    case Call(callee, _, args, _) => CallCode(natives, targets, result, callee, args)
    case ProtocolCall(_) => Err(UnsupportedByBackend)
    case UnsupportedKind(_) => Err(UnsupportedByBackend)
  }

  function ValueCode(natives: Natives, targets: Functions, result: ValueId, ty: Ty,
                     kind: ValueKind): Lowered<Fragment> {
    match ScalarOf(ty)
    case Some(scalar) => KindCode(natives, targets, result, scalar, kind)
    case None => Err(UnsupportedByBackend)
  }

  function StoreCode(natives: Natives, slot: ValueId, value: ValueId): Lowered<seq<Inst>> {
    match (Lookup(natives, slot), Lookup(natives, value))
    case (Err(error), _) => Err(error)
    case (_, Err(error)) => Err(error)
    case (Ok(target), Ok(stored)) =>
      match (target, stored)
      case (NativeSlot(None, UnitScalar), NativeUnit) => Ok([])
      case (NativeSlot(Some(variable), IntScalar), NativeInt(x)) => Ok([DefVar(variable, x)])
      case (NativeSlot(Some(variable), BoolScalar), NativeBool(x)) => Ok([DefVar(variable, x)])
      case (NativeSlot(_, _), _) => Err(CannotHold(slot))
      case _ => Err(NotASlot(slot))
  }

  /** The code of one instruction; a store defines no value. */
  datatype Step = Step(insts: seq<Inst>, guard: Option<Guard>, defined: Option<(ValueId, Native)>)

  function InstructionCode(natives: Natives, targets: Functions, instruction: Instruction): Lowered<Step> {
    match instruction
    case Value(result, ty, kind) =>
      (match ValueCode(natives, targets, result, ty, kind)
       case Ok(fragment) => Ok(Step(fragment.insts, fragment.guard, Some((result, fragment.native))))
       case Err(error) => Err(error))
    case Store(slot, value, _) =>
      (match StoreCode(natives, slot, value)
       case Ok(insts) => Ok(Step(insts, None, None))
       case Err(error) => Err(error))
    case UnsupportedInstruction(_) => Err(UnsupportedByBackend)
  }

  function BlockLabel(blocks: set<BlockId>, block: BlockId): Lowered<Label> {
    if block in blocks then Ok(Main(block)) else Err(BlockNeverCreated(block))
  }

  function ExitCode(natives: Natives, blocks: set<BlockId>, terminator: Terminator): Lowered<Exit> {
    match terminator
    case Return(None) => Ok(Ret(None))
    case Return(Some(v)) =>
      (match Lookup(natives, v)
       case Ok(NativeUnit) => Ok(Ret(None))
       case Ok(NativeInt(x)) => Ok(Ret(Some(x)))
       case Ok(NativeBool(x)) => Ok(Ret(Some(x)))
       case Ok(NativeSlot(_, _)) => Err(SlotAsArgument(v))
       case Err(error) => Err(error))
    case Branch(target) =>
      (match BlockLabel(blocks, target)
       case Ok(destination) => Ok(Jump(destination))
       case Err(error) => Err(error))
    case CondBranch(condition, thenBlock, elseBlock) =>
      (match (BooleanOf(natives, condition), BlockLabel(blocks, thenBlock), BlockLabel(blocks, elseBlock))
       case (Ok(flag), Ok(thenLabel), Ok(elseLabel)) => Ok(Brif(flag, thenLabel, elseLabel))
       case (Err(error), _, _) => Err(error)
       case (_, Err(error), _) => Err(error)
       case (_, _, Err(error)) => Err(error))
    case _ => Err(UnsupportedByBackend)
  }

  function SignatureOf(f: Function): Lowered<Signature> {
    match (ParameterTypes(f.params), ScalarOf(f.returnType))
    case (Ok(types), Some(scalar)) => Ok(Signature(types, AbiType(scalar)))
    case (Err(error), _) => Err(error)
    case (_, None) => Err(UnsupportedByBackend)
  }

  function ParameterTypes(params: seq<Param>): Lowered<seq<WordType>> {
    if params == [] then Ok([])
    else
      var last := |params| - 1;
      match (ParameterTypes(params[..last]), ScalarOf(params[last].ty))
      case (Err(error), _) => Err(error)
      case (_, None) => Err(UnsupportedByBackend)
      case (Ok(before), Some(scalar)) =>
        match AbiType(scalar)
        case None => Ok(before)
        case Some(word) => Ok(before + [word])
  }
}
