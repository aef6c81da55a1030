/** Exactly when the target machine is stuck: what makes an instruction, a call, a return or a jump malformed. */
module TargetRules {
  import opened Wrappers
  import opened Numeric
  import opened Nir
  import opened TargetIr

  predicate HoldsWordOf(locals: Locals, r: Register, ty: WordType) {
    r in locals.registers && HasWordType(locals.registers[r], ty)
  }

  predicate HasWordType(word: Word, ty: WordType) {
    word.I64? <==> ty == I64Type
  }

  /** The register holds a signed 64-bit integer. */
  predicate HoldsInteger(locals: Locals, r: Register) {
    HoldsWordOf(locals, r, I64Type)
    && -0x8000_0000_0000_0000 <= locals.registers[r].n <= 0x7fff_ffff_ffff_ffff
  }

  /** An instruction that cannot be executed in a frame with these locals. */
  predicate Rejects(inst: Inst, locals: Locals) {
    match inst
    case Iconst(_, _) => false
    case Arith(_, _, a, b) => !HoldsInteger(locals, a) || !HoldsInteger(locals, b)
    case Bits(_, _, a, b) => !HoldsInteger(locals, a) || !HoldsInteger(locals, b)
    case SshrImm(_, a, _) => !HoldsInteger(locals, a)
    case Ineg(_, a) => !HoldsInteger(locals, a)
    case Bnot(_, a) => !HoldsInteger(locals, a)
    case BxorImm(_, a, mask) => !HoldsWordOf(locals, a, I8Type) || locals.registers[a].byte >= 256 || mask >= 256
    case Icmp(_, _, a, b) =>
      a !in locals.registers || b !in locals.registers || locals.registers[a].I64? != locals.registers[b].I64?
    case IcmpImm(_, _, a, _) => !HoldsInteger(locals, a)
    case UseVar(_, variable) => variable !in locals.variables
    case DefVar(_, src) => src !in locals.registers
    case CallFunction(_, _, _) => true
    case CallHandler(_) => true
  }

  lemma ExecutesUnlessRejected(inst: Inst, locals: Locals)
    ensures Execute(inst, locals) == None <==> Rejects(inst, locals)
  {
  }

  predicate CallRejected(program: Program, locals: Locals, callee: ItemId, args: seq<Register>) {
    || callee !in program
    || |args| != |program[callee].signature.params| || |args| != |program[callee].arguments|
    || Prologue !in program[callee].code
    || exists i :: 0 <= i < |args| && !HoldsWordOf(locals, args[i], program[callee].signature.params[i])
  }

  /** The word does not fit what the function is declared to answer. */
  predicate AnswerRejected(program: Program, callee: ItemId, word: Option<Word>) {
    || callee !in program
    || program[callee].signature.answer.Some? != word.Some?
    || (word.Some? && !HasWordType(word.value, program[callee].signature.answer.value))
  }

  /** The caller is at no call, or at one that takes a result where there is none or none where there is one. */
  predicate CallerRejects(caller: TargetFrame, word: Option<Word>) {
    || caller.code.insts == []
    || !caller.code.insts[0].CallFunction?
    || caller.code.insts[0].result.Some? != word.Some?
  }

  predicate ReturnRejected(program: Program, callers: seq<TargetFrame>, callee: ItemId, word: Option<Word>) {
    AnswerRejected(program, callee, word) || (callers != [] && CallerRejects(callers[|callers| - 1], word))
  }

  predicate LabelMissing(program: Program, callee: ItemId, target: Label) {
    callee !in program || target !in program[callee].code
  }

  predicate ExitRejected(program: Program, callers: seq<TargetFrame>, top: TargetFrame) {
    match top.code.exit
    case Jump(target) => LabelMissing(program, top.callee, target)
    case Brif(flag, yes, no) =>
      !HoldsWordOf(top.locals, flag, I8Type)
      || LabelMissing(program, top.callee, if top.locals.registers[flag] == I8(0) then no else yes)
    case Ret(None) => ReturnRejected(program, callers, top.callee, None)
    case Ret(Some(r)) =>
      r !in top.locals.registers || ReturnRejected(program, callers, top.callee, Some(top.locals.registers[r]))
    case Trap => true
  }

  /** What the top of the stack is about to do is malformed. */
  predicate Malformed(program: Program, callers: seq<TargetFrame>, top: TargetFrame) {
    if top.code.insts == [] then ExitRejected(program, callers, top)
    else
      match top.code.insts[0]
      case CallFunction(_, callee, args) => CallRejected(program, top.locals, callee, args)
      case CallHandler(_) => false
      case inst => Rejects(inst, top.locals)
  }

  lemma CallsUnlessRejected(program: Program, callers: seq<TargetFrame>, top: TargetFrame, callee: ItemId,
                            args: seq<Register>)
    ensures StepCallFunction(program, callers, top, callee, args) == TStuck
            <==> CallRejected(program, top.locals, callee, args)
  {
  }

  lemma ReturnsUnlessRejected(program: Program, callers: seq<TargetFrame>, top: TargetFrame, word: Option<Word>)
    ensures StepRet(program, callers, top, word) == TStuck <==> ReturnRejected(program, callers, top.callee, word)
  {
  }

  /** The target machine is stuck exactly where it is about to do something malformed. */
  lemma StuckExactly(program: Program, callers: seq<TargetFrame>, top: TargetFrame)
    ensures TargetStep(program, TRunning(callers, top)) == TStuck <==> Malformed(program, callers, top)
  {
    if top.code.insts == [] {
      match top.code.exit
      case Ret(None) => ReturnsUnlessRejected(program, callers, top, None);
      case Ret(Some(r)) =>
        if r in top.locals.registers {
          ReturnsUnlessRejected(program, callers, top, Some(top.locals.registers[r]));
        }
      case _ =>
    } else {
      match top.code.insts[0]
      case CallFunction(_, callee, args) => CallsUnlessRejected(program, callers, top, callee, args);
      case inst => ExecutesUnlessRejected(inst, top.locals);
    }
  }

  /** A run that goes on past a state was not about to do anything malformed there. */
  lemma NextUnlessMalformed(program: Program, start: TargetState, k: nat)
    requires TargetRun(program, start, k + 1) != TStuck
    ensures var t := TargetRun(program, start, k); t.TRunning? ==> !Malformed(program, t.callers, t.top)
  {
    var t := TargetRun(program, start, k);
    TargetRunAdds(program, start, k, 1);
    assert TargetRun(program, t, 1) == TargetRun(program, TargetStep(program, t), 0);
    if t.TRunning? {
      StuckExactly(program, t.callers, t.top);
    }
  }

  /** A word read as signed or as unsigned is the integer of that range with the same bits. */
  lemma WordsAreRead(word: Word)
    requires if word.I64? then InI64(word.n) else word.byte < 256
    ensures word.I64? ==> SignedValue(word) == word.n
    ensures word.I64? ==> 0 <= UnsignedValue(word) < 0x1_0000_0000_0000_0000
    ensures word.I64? ==> (word.n - UnsignedValue(word)) % 0x1_0000_0000_0000_0000 == 0
    ensures word.I8? ==> -128 <= SignedValue(word) < 128 && (word.byte - SignedValue(word)) % 256 == 0
    ensures word.I8? ==> UnsignedValue(word) == word.byte
  {
    if word.I64? {
      assert word.n - word.n % TWO_64 == word.n / TWO_64 * TWO_64;
    }
  }

  /** The comparisons are those of the integers read as their names say; equality does not depend on the reading. */
  lemma ComparesAsNamed(a: Word, b: Word)
    ensures Compares(SignedLess, a, b) <==> SignedValue(a) < SignedValue(b)
    ensures Compares(SignedLessOrEqual, a, b) <==> SignedValue(a) <= SignedValue(b)
    ensures Compares(SignedGreater, a, b) <==> SignedValue(a) > SignedValue(b)
    ensures Compares(SignedGreaterOrEqual, a, b) <==> SignedValue(a) >= SignedValue(b)
    ensures Compares(UnsignedLess, a, b) <==> UnsignedValue(a) < UnsignedValue(b)
    ensures Compares(UnsignedLessOrEqual, a, b) <==> UnsignedValue(a) <= UnsignedValue(b)
    ensures Compares(UnsignedGreater, a, b) <==> UnsignedValue(a) > UnsignedValue(b)
    ensures Compares(UnsignedGreaterOrEqual, a, b) <==> UnsignedValue(a) >= UnsignedValue(b)
    ensures Compares(Equal, a, b) <==> SignedValue(a) == SignedValue(b)
    ensures Compares(NotEqual, a, b) <==> !Compares(Equal, a, b)
  {
  }

  /** `sshr` by some amount is division by that power of two, rounded down. */
  lemma ShiftDividesDown(dst: Register, a: Register, amount: nat, locals: Locals)
    requires HoldsInteger(locals, a)
    ensures var after := Execute(SshrImm(dst, a, amount), locals);
            && after.Some? && HoldsWordOf(after.value, dst, I64Type)
            && after.value.registers[dst].n * Pow2(amount) <= locals.registers[a].n
               < (after.value.registers[dst].n + 1) * Pow2(amount)
  {
    var n, q := locals.registers[a].n, locals.registers[a].n / Pow2(amount);
    assert n == q * Pow2(amount) + n % Pow2(amount);
  }
}
