/** The target of code generation: the few machine-level instructions it emits, and what they do.

    A call of a failure handler is one instruction, because the handler writes its message and exits. Reading an
    undefined register or variable, a type confusion and an arity mismatch are all `TStuck`. */
module TargetIr {
  import opened Wrappers
  import opened Numeric
  import opened Nir

  datatype WordType = I64Type | I8Type

  /** A machine word: a signed 64-bit integer, or the unsigned byte a `bool` is held in. */
  datatype Word = I64(n: int) | I8(byte: nat)

  /** The registers of one NIR value: part 0 is the value, the others are intermediate results. */
  datatype Register = Reg(value: ValueId, part: nat)

  /** The blocks of one target function: its prologue, one per NIR block, and two per checked operation. */
  datatype Label = Prologue | Main(block: BlockId) | Failure(value: ValueId) | Continued(value: ValueId)

  datatype ArithOp = Iadd | Isub | Imul | Smulhi

  datatype IntCC =
    | Equal | NotEqual
    | SignedLess | SignedLessOrEqual | SignedGreater | SignedGreaterOrEqual
    | UnsignedLess | UnsignedLessOrEqual | UnsignedGreater | UnsignedGreaterOrEqual

  /** `Bits` is `band`, `bor` or `bxor`. */
  datatype Inst =
    | Iconst(dst: Register, word: Word)
    | Arith(dst: Register, op: ArithOp, a: Register, b: Register)
    | Bits(dst: Register, bit: BitOp, a: Register, b: Register)
    | SshrImm(dst: Register, a: Register, amount: nat)
    | Ineg(dst: Register, a: Register)
    | Bnot(dst: Register, a: Register)
    | BxorImm(dst: Register, a: Register, mask: nat)
    | Icmp(dst: Register, cc: IntCC, a: Register, b: Register)
    | IcmpImm(dst: Register, cc: IntCC, a: Register, immediate: int)
    | UseVar(dst: Register, variable: ValueId)
    | DefVar(variable: ValueId, src: Register)
    | CallFunction(result: Option<Register>, callee: ItemId, args: seq<Register>)
    | CallHandler(failed: CheckedOp)

  datatype Exit =
    | Jump(target: Label)
    | Brif(flag: Register, thenLabel: Label, elseLabel: Label)
    | Ret(value: Option<Register>)
    | Trap

  datatype BlockCode = BlockCode(insts: seq<Inst>, exit: Exit)

  datatype Signature = Signature(params: seq<WordType>, answer: Option<WordType>)

  datatype TargetFunction = TargetFunction(signature: Signature, arguments: seq<Register>, code: map<Label, BlockCode>)

  type Program = map<ItemId, TargetFunction>

  datatype Locals = Locals(registers: map<Register, Word>, variables: map<ValueId, Word>)

  /** One activation, with the code it has still to execute; a caller is still at its call. */
  datatype TargetFrame = TargetFrame(callee: ItemId, code: BlockCode, locals: Locals)

  datatype TargetState =
    | TRunning(callers: seq<TargetFrame>, top: TargetFrame)
    | TReturned(result: Option<Word>)
    | TFailed(op: CheckedOp)
    | TStuck

  function TypeOf(word: Word): WordType {
    if word.I64? then I64Type else I8Type
  }

  function Arithmetic(op: ArithOp, x: int, y: int): int
    requires InI64(x) && InI64(y)
  {
    match op
    case Iadd => Wrap(x + y)
    case Isub => Wrap(x - y)
    case Imul => Wrap(x * y)
    case Smulhi => MulHigh(x, y)
  }

  /** The word read as a signed, or as an unsigned, integer of its own width. */
  function SignedValue(word: Word): int {
    match word
    case I64(n) => n
    case I8(byte) => if byte < 128 then byte else byte - 256
  }

  function UnsignedValue(word: Word): int {
    match word
    case I64(n) => n % TWO_64
    case I8(byte) => byte
  }

  predicate ComparesSigned(cc: IntCC, x: int, y: int) {
    match cc
    case Equal => x == y
    case NotEqual => x != y
    case SignedLess => x < y
    case SignedLessOrEqual => x <= y
    case SignedGreater => x > y
    case SignedGreaterOrEqual => x >= y
    case _ => false
  }

  predicate ComparesUnsigned(cc: IntCC, x: int, y: int) {
    match cc
    case UnsignedLess => x < y
    case UnsignedLessOrEqual => x <= y
    case UnsignedGreater => x > y
    case UnsignedGreaterOrEqual => x >= y
    case _ => false
  }

  predicate IsUnsigned(cc: IntCC) {
    cc in {UnsignedLess, UnsignedLessOrEqual, UnsignedGreater, UnsignedGreaterOrEqual}
  }

  predicate Compares(cc: IntCC, a: Word, b: Word) {
    if IsUnsigned(cc) then ComparesUnsigned(cc, UnsignedValue(a), UnsignedValue(b))
    else ComparesSigned(cc, SignedValue(a), SignedValue(b))
  }

  function Flag(b: bool): Word {
    if b then I8(1) else I8(0)
  }

  function Set(locals: Locals, dst: Register, word: Word): Locals {
    locals.(registers := locals.registers[dst := word])
  }

  predicate HoldsInt(locals: Locals, r: Register) {
    r in locals.registers && locals.registers[r].I64? && InI64(locals.registers[r].n)
  }

  predicate HoldsByte(locals: Locals, r: Register) {
    r in locals.registers && locals.registers[r].I8? && locals.registers[r].byte < 256
  }

  /** What an instruction that stays in its frame does. */
  function Execute(inst: Inst, locals: Locals): Option<Locals> {
    var registers := locals.registers;
    match inst
    case Iconst(dst, word) => Some(Set(locals, dst, word))
    case Arith(dst, op, a, b) =>
      if HoldsInt(locals, a) && HoldsInt(locals, b) then
        Some(Set(locals, dst, I64(Arithmetic(op, registers[a].n, registers[b].n))))
      else None
    case Bits(dst, bit, a, b) =>
      if HoldsInt(locals, a) && HoldsInt(locals, b) then
        Some(Set(locals, dst, I64(BitwiseI64(bit, registers[a].n, registers[b].n))))
      else None
    case SshrImm(dst, a, amount) =>
      if HoldsInt(locals, a) then Some(Set(locals, dst, I64(registers[a].n / Pow2(amount)))) else None
    case Ineg(dst, a) => if HoldsInt(locals, a) then Some(Set(locals, dst, I64(Wrap(-registers[a].n)))) else None
    case Bnot(dst, a) => if HoldsInt(locals, a) then Some(Set(locals, dst, I64(BitNot(registers[a].n)))) else None
    case BxorImm(dst, a, mask) =>
      if HoldsByte(locals, a) && mask < 256 then
        Some(Set(locals, dst, I8(ByteXor(registers[a].byte, mask))))
      else None
    case Icmp(dst, cc, a, b) =>
      if a in registers && b in registers && TypeOf(registers[a]) == TypeOf(registers[b]) then
        Some(Set(locals, dst, Flag(Compares(cc, registers[a], registers[b]))))
      else None
    case IcmpImm(dst, cc, a, immediate) =>
      if HoldsInt(locals, a) then Some(Set(locals, dst, Flag(Compares(cc, registers[a], I64(immediate))))) else None
    case UseVar(dst, variable) =>
      if variable in locals.variables then Some(Set(locals, dst, locals.variables[variable])) else None
    case DefVar(variable, src) =>
      if src in registers then Some(locals.(variables := locals.variables[variable := registers[src]])) else None
    case CallFunction(_, _, _) => None
    case CallHandler(_) => None
  }

  const BYTE_BITS: nat := 8

  function ByteXor(a: nat, b: nat): nat
    requires a < 256 && b < 256
  {
    assert Pow2(BYTE_BITS) == 256;
    Bitwise(Xor, a, b, BYTE_BITS)
  }

  function EnterLabel(program: Program, callers: seq<TargetFrame>, top: TargetFrame, target: Label): TargetState {
    if top.callee in program && target in program[top.callee].code then
      TRunning(callers, top.(code := program[top.callee].code[target]))
    else TStuck
  }

  predicate ArgumentsFit(registers: map<Register, Word>, args: seq<Register>, types: seq<WordType>) {
    |args| == |types| && forall i :: 0 <= i < |args| ==> args[i] in registers && TypeOf(registers[args[i]]) == types[i]
  }

  /** The callee's argument registers, filled by position. */
  function PassArguments(registers: map<Register, Word>, args: seq<Register>, into: seq<Register>): map<Register, Word>
    requires |args| == |into| && forall i :: 0 <= i < |args| ==> args[i] in registers
  {
    if args == [] then map[]
    else
      var n := |args| - 1;
      PassArguments(registers, args[..n], into[..n])[into[n] := registers[args[n]]]
  }

  function StepCallFunction(program: Program, callers: seq<TargetFrame>, top: TargetFrame, callee: ItemId,
                            args: seq<Register>): TargetState
  {
    if callee !in program then TStuck
    else
      var target := program[callee];
      if ArgumentsFit(top.locals.registers, args, target.signature.params) && |target.arguments| == |args|
         && Prologue in target.code
      then
        TRunning(callers + [top],
                 TargetFrame(callee, target.code[Prologue],
                             Locals(PassArguments(top.locals.registers, args, target.arguments), map[])))
      else TStuck
  }

  /** The code after its first instruction. */
  function Rest(code: BlockCode): BlockCode
    requires code.insts != []
  {
    BlockCode(code.insts[1..], code.exit)
  }

  function StepRet(program: Program, callers: seq<TargetFrame>, top: TargetFrame, word: Option<Word>): TargetState {
    if top.callee !in program || program[top.callee].signature.answer != (if word.Some? then Some(TypeOf(word.value))
       else None)
    then TStuck
    else if callers == [] then TReturned(word)
    else
      var caller := callers[|callers| - 1];
      if caller.code.insts == [] then TStuck
      else
        match (caller.code.insts[0], word)
        case (CallFunction(None, _, _), None) =>
          TRunning(callers[..|callers| - 1], caller.(code := Rest(caller.code)))
        case (CallFunction(Some(dst), _, _), Some(w)) =>
          TRunning(callers[..|callers| - 1], caller.(code := Rest(caller.code), locals := Set(caller.locals, dst, w)))
        case _ => TStuck
  }

  function StepExit(program: Program, callers: seq<TargetFrame>, top: TargetFrame, exit: Exit): TargetState {
    match exit
    case Jump(target) => EnterLabel(program, callers, top, target)
    case Brif(flag, thenLabel, elseLabel) =>
      if flag in top.locals.registers && top.locals.registers[flag].I8? then
        EnterLabel(program, callers, top, if top.locals.registers[flag].byte != 0 then thenLabel else elseLabel)
      else TStuck
    case Ret(None) => StepRet(program, callers, top, None)
    case Ret(Some(r)) =>
      if r in top.locals.registers then StepRet(program, callers, top, Some(top.locals.registers[r])) else TStuck
    case Trap => TStuck
  }

  function TargetStep(program: Program, t: TargetState): TargetState {
    match t
    case TRunning(callers, top) =>
      if top.code.insts == [] then StepExit(program, callers, top, top.code.exit)
      else
        (match top.code.insts[0]
         case CallFunction(_, callee, args) => StepCallFunction(program, callers, top, callee, args)
         case CallHandler(op) => TFailed(op)
         case inst =>
           match Execute(inst, top.locals)
           case Some(locals) => TRunning(callers, top.(code := Rest(top.code), locals := locals))
           case None => TStuck)
    case _ => t
  }

  function TargetRun(program: Program, t: TargetState, n: nat): TargetState
    decreases n
  {
    if n == 0 then t else TargetRun(program, TargetStep(program, t), n - 1)
  }

  lemma {:induction false} TargetRunAdds(program: Program, t: TargetState, m: nat, n: nat)
    ensures TargetRun(program, t, m + n) == TargetRun(program, TargetRun(program, t, m), n)
    decreases m
  {
    if m > 0 {
      TargetRunAdds(program, TargetStep(program, t), m - 1, n);
    }
  }

  // Straight-line code.

  function ExecuteAll(insts: seq<Inst>, locals: Locals): Option<Locals> {
    if insts == [] then Some(locals)
    else match Execute(insts[0], locals)
         case Some(next) => ExecuteAll(insts[1..], next)
         case None => None
  }

  lemma ExecuteFirst(inst: Inst, insts: seq<Inst>, locals: Locals)
    requires Execute(inst, locals).Some?
    ensures ExecuteAll([inst] + insts, locals) == ExecuteAll(insts, Execute(inst, locals).value)
  {
    assert ([inst] + insts)[1..] == insts;
  }

  /** Local instructions at the head of a frame's code take one step each and leave the rest of it. */
  lemma {:induction false} StraightLine(program: Program, callers: seq<TargetFrame>, top: TargetFrame, insts: seq<Inst>,
                                        rest: BlockCode)
    requires top.code == BlockCode(insts + rest.insts, rest.exit)
    requires ExecuteAll(insts, top.locals).Some?
    ensures TargetRun(program, TRunning(callers, top), |insts|)
            == TRunning(callers, top.(code := rest, locals := ExecuteAll(insts, top.locals).value))
    decreases |insts|
  {
    if insts == [] {
      assert insts + rest.insts == rest.insts;
    } else {
      assert (insts + rest.insts)[1..] == insts[1..] + rest.insts;
      var next := top.(code := Rest(top.code), locals := Execute(insts[0], top.locals).value);
      assert TargetStep(program, TRunning(callers, top)) == TRunning(callers, next);
      StraightLine(program, callers, next, insts[1..], rest);
    }
  }
}
