/** Each emitted fragment computes what the interpreter computes, register by register. */
module Fragments {
  import opened Wrappers
  import opened Numeric
  import opened Nir
  import opened NirSemantics
  import opened TargetIr
  import opened Lowering

  /** The word a datum is held in; `unit` is held in none. */
  function WordOf(d: Datum): Option<Word> {
    match d
    case IntDatum(n) => Some(I64(n))
    case BoolDatum(b) => Some(Flag(b))
    case UnitDatum => None
  }

  /** No two data of the same program value share a word. */
  lemma WordOfIsInjective(a: Datum, b: Datum)
    ensures WordOf(a) == WordOf(b) <==> a == b
  {
  }

  predicate HoldsWord(locals: Locals, r: Register, word: Option<Word>) {
    word.Some? ==> r in locals.registers && locals.registers[r] == word.value
  }

  /** Only registers of `result` may differ, and no variable does. */
  ghost predicate OnlyTouches(before: Locals, after: Locals, result: ValueId) {
    && after.variables == before.variables
    && forall r: Register :: r.value != result ==>
         (r in after.registers <==> r in before.registers)
         && (r in after.registers ==> after.registers[r] == before.registers[r])
  }

  /** Running `fragment` has the outcome of evaluating the value: its word, or a raised flag of the failed operator. */
  ghost predicate Runs(fragment: Fragment, before: Locals, result: ValueId, outcome: Evaluation) {
    var done := ExecuteAll(fragment.insts, before);
    && done.Some? && OnlyTouches(before, done.value, result)
    && match outcome
       case Computed(d) =>
         && HoldsWord(done.value, Reg(result, 0), WordOf(d))
         && (fragment.guard.Some? ==> HoldsWord(done.value, fragment.guard.value.flag, Some(Flag(false))))
       case Overflow(op) =>
         fragment.guard.Some? && fragment.guard.value.op == op
         && HoldsWord(done.value, fragment.guard.value.flag, Some(Flag(true)))
       case Invalid => false
  }

  lemma ExecuteNone(locals: Locals)
    ensures ExecuteAll([], locals) == Some(locals)
  {
  }

  lemma ExecuteOne(inst: Inst, locals: Locals)
    requires Execute(inst, locals).Some?
    ensures ExecuteAll([inst], locals) == Execute(inst, locals)
  {
    ExecuteFirst(inst, [], locals);
    assert [inst] + [] == [inst];
  }

  /** Instructions executed one after another, through given intermediate states. */
  lemma {:induction false} ExecuteChain(insts: seq<Inst>, states: seq<Locals>)
    requires |states| == |insts| + 1
    requires forall i :: 0 <= i < |insts| ==> Leads(insts, states, i)
    ensures ExecuteAll(insts, states[0]) == Some(states[|insts|])
    decreases |insts|
  {
    if insts != [] {
      assert Leads(insts, states, 0);
      forall i | 0 <= i < |insts| - 1
        ensures Leads(insts[1..], states[1..], i)
      {
        var next := i + 1;
        assert Leads(insts, states, next);
      }
      ExecuteChain(insts[1..], states[1..]);
    }
  }

  predicate Leads(insts: seq<Inst>, states: seq<Locals>, i: nat)
    requires i < |insts| && |states| == |insts| + 1
  {
    Execute(insts[i], states[i]) == Some(states[i + 1])
  }

  predicate IsInt(locals: Locals, r: Register, n: int) {
    r in locals.registers && locals.registers[r] == I64(n) && InI64(n)
  }

  function Exact(op: CheckedOp, x: int, y: int): int {
    match op
    case AddOp => x + y
    case SubOp => x - y
    case MulOp => x * y
    case NegOp => -x
  }

  /** The emitted arithmetic wraps, and the flag after it is set exactly when the exact result does not fit. */
  ghost predicate ChecksExactly(insts: seq<Inst>, before: Locals, v: ValueId, exact: int) {
    var done := ExecuteAll(insts, before);
    && done.Some? && OnlyTouches(before, done.value, v)
    && HoldsWord(done.value, Reg(v, 0), Some(I64(Wrap(exact))))
    && HoldsWord(done.value, Reg(v, 4), Some(Flag(!InI64(exact))))
  }

  lemma ArithExecutes(op: ArithOp, dst: Register, a: Register, b: Register, x: int, y: int, s: Locals)
    returns (after: Locals)
    requires IsInt(s, a, x) && IsInt(s, b, y)
    ensures Execute(Arith(dst, op, a, b), s) == Some(after)
    ensures after == Set(s, dst, I64(Arithmetic(op, x, y)))
  {
    after := Set(s, dst, I64(Arithmetic(op, x, y)));
  }

  lemma BitsExecute(op: BitOp, dst: Register, a: Register, b: Register, x: int, y: int, s: Locals)
    returns (after: Locals)
    requires IsInt(s, a, x) && IsInt(s, b, y)
    ensures Execute(Bits(dst, op, a, b), s) == Some(after)
    ensures after == Set(s, dst, I64(BitwiseI64(op, x, y)))
  {
    after := Set(s, dst, I64(BitwiseI64(op, x, y)));
  }

  lemma TestExecutes(dst: Register, a: Register, x: int, s: Locals) returns (after: Locals)
    requires IsInt(s, a, x)
    ensures Execute(IcmpImm(dst, SignedLess, a, 0), s) == Some(after)
    ensures after == Set(s, dst, Flag(x < 0))
  {
    after := Set(s, dst, Flag(x < 0));
  }

  /** Whether the conjunction of two exclusive ors is negative. */
  predicate SignsDiffer(x1: int, y1: int, x2: int, y2: int)
    requires InI64(x1) && InI64(y1) && InI64(x2) && InI64(y2)
  {
    BitwiseI64(And, BitwiseI64(Xor, x1, y1), BitwiseI64(Xor, x2, y2)) < 0
  }

  lemma AddSignTest(x: int, y: int)
    requires InI64(x) && InI64(y)
    ensures SignsDiffer(x, Wrap(x + y), y, Wrap(x + y)) == !InI64(x + y)
  {
    AddFlagIsExact(x, y);
  }

  lemma SubSignTest(x: int, y: int)
    requires InI64(x) && InI64(y)
    ensures SignsDiffer(x, y, x, Wrap(x - y)) == !InI64(x - y)
  {
    SubFlagIsExact(x, y);
  }

  lemma SignTestRuns(v: ValueId, a1: Register, b1: Register, x1: int, y1: int, a2: Register, b2: Register, x2: int,
                     y2: int, s0: Locals)
    requires IsInt(s0, a1, x1) && IsInt(s0, b1, y1) && IsInt(s0, a2, x2) && IsInt(s0, b2, y2)
    requires a2 != Reg(v, 1) && b2 != Reg(v, 1)
    ensures var done := ExecuteAll(SignTestInsts(v, a1, b1, a2, b2), s0);
            && done.Some? && Tests(s0, done.value, v, SignsDiffer(x1, y1, x2, y2))
  {
    var w1, w2 := BitwiseI64(Xor, x1, y1), BitwiseI64(Xor, x2, y2);
    var insts := SignTestInsts(v, a1, b1, a2, b2);
    var s1 := BitsExecute(Xor, Reg(v, 1), a1, b1, x1, y1, s0);
    var s2 := BitsExecute(Xor, Reg(v, 2), a2, b2, x2, y2, s1);
    var s3 := BitsExecute(And, Reg(v, 3), Reg(v, 1), Reg(v, 2), w1, w2, s2);
    var s4 := TestExecutes(Reg(v, 4), Reg(v, 3), BitwiseI64(And, w1, w2), s3);
    FourSteps(insts, [s0, s1, s2, s3, s4]);
    FourSet(v, I64(w1), I64(w2), I64(BitwiseI64(And, w1, w2)), SignsDiffer(x1, y1, x2, y2), s0);
  }

  lemma FourSteps(insts: seq<Inst>, states: seq<Locals>)
    requires |insts| == 4 && |states| == 5
    requires Execute(insts[0], states[0]) == Some(states[1])
    requires Execute(insts[1], states[1]) == Some(states[2])
    requires Execute(insts[2], states[2]) == Some(states[3])
    requires Execute(insts[3], states[3]) == Some(states[4])
    ensures ExecuteAll(insts, states[0]) == Some(states[4])
  {
    ExecuteChain(insts, states);
  }

  lemma FourSet(v: ValueId, w1: Word, w2: Word, w3: Word, flag: bool, s: Locals)
    ensures Tests(s, Set(Set(Set(Set(s, Reg(v, 1), w1), Reg(v, 2), w2), Reg(v, 3), w3), Reg(v, 4), Flag(flag)), v, flag)
  {
  }

  /** Only the intermediate registers and the flag of `v` changed, and the flag is `flag`. */
  ghost predicate Tests(before: Locals, after: Locals, v: ValueId, flag: bool) {
    && after.variables == before.variables
    && (forall r: Register :: r.value != v || r.part == 0 ==>
          (r in after.registers <==> r in before.registers)
          && (r in after.registers ==> after.registers[r] == before.registers[r]))
    && HoldsWord(after, Reg(v, 4), Some(Flag(flag)))
  }

  /** A wrapped result followed by a test of whether the exact one fits is a checked operation. */
  lemma OperationThenTest(first: Inst, test: seq<Inst>, v: ValueId, s0: Locals, exact: int)
    requires Execute(first, s0) == Some(Set(s0, Reg(v, 0), I64(Wrap(exact))))
    requires ExecuteAll(test, Set(s0, Reg(v, 0), I64(Wrap(exact)))).Some?
    requires Tests(Set(s0, Reg(v, 0), I64(Wrap(exact))), ExecuteAll(test, Set(s0, Reg(v, 0), I64(Wrap(exact)))).value,
                   v, !InI64(exact))
    ensures ChecksExactly([first] + test, s0, v, exact)
  {
    ExecuteFirst(first, test, s0);
  }

  lemma AddTestRuns(v: ValueId, left: Register, right: Register, x: int, y: int, s: Locals)
    requires IsInt(s, left, x) && IsInt(s, right, y) && IsInt(s, Reg(v, 0), Wrap(x + y))
    requires right.value != v
    ensures var done := ExecuteAll(SignTestInsts(v, left, Reg(v, 0), right, Reg(v, 0)), s);
            && done.Some? && Tests(s, done.value, v, !InI64(x + y))
  {
    SignTestRuns(v, left, Reg(v, 0), x, Wrap(x + y), right, Reg(v, 0), y, Wrap(x + y), s);
    AddSignTest(x, y);
  }

  lemma SubTestRuns(v: ValueId, left: Register, right: Register, x: int, y: int, s: Locals)
    requires IsInt(s, left, x) && IsInt(s, right, y) && IsInt(s, Reg(v, 0), Wrap(x - y))
    requires left.value != v
    ensures var done := ExecuteAll(SignTestInsts(v, left, right, left, Reg(v, 0)), s);
            && done.Some? && Tests(s, done.value, v, !InI64(x - y))
  {
    SignTestRuns(v, left, right, x, y, left, Reg(v, 0), x, Wrap(x - y), s);
    SubSignTest(x, y);
  }

  lemma AddChecks(v: ValueId, left: Register, right: Register, x: int, y: int, s: Locals)
    requires IsInt(s, left, x) && IsInt(s, right, y) && left.value != v && right.value != v
    ensures ChecksExactly(CheckedInsts(AddOp, v, left, right), s, v, x + y)
  {
    var s1 := ArithExecutes(Iadd, Reg(v, 0), left, right, x, y, s);
    AddTestRuns(v, left, right, x, y, s1);
    OperationThenTest(Arith(Reg(v, 0), Iadd, left, right), SignTestInsts(v, left, Reg(v, 0), right, Reg(v, 0)), v, s,
                      x + y);
  }

  lemma SubChecks(v: ValueId, left: Register, right: Register, x: int, y: int, s: Locals)
    requires IsInt(s, left, x) && IsInt(s, right, y) && left.value != v && right.value != v
    ensures ChecksExactly(CheckedInsts(SubOp, v, left, right), s, v, x - y)
  {
    var s1 := ArithExecutes(Isub, Reg(v, 0), left, right, x, y, s);
    SubTestRuns(v, left, right, x, y, s1);
    OperationThenTest(Arith(Reg(v, 0), Isub, left, right), SignTestInsts(v, left, right, left, Reg(v, 0)), v, s, x - y);
  }

  lemma MulChecks(v: ValueId, left: Register, right: Register, x: int, y: int, s0: Locals)
    requires IsInt(s0, left, x) && IsInt(s0, right, y) && left.value != v && right.value != v
    ensures ChecksExactly(CheckedInsts(MulOp, v, left, right), s0, v, x * y)
  {
    var r := Wrap(x * y);
    MulFlagIsExact(x, y);
    MulExecutes(v, left, right, x, y, r, MulHigh(x, y), !InI64(x * y), s0);
    MulSets(v, r, MulHigh(x, y), SignFill(r), !InI64(x * y), s0);
  }

  lemma MulExecutes(v: ValueId, left: Register, right: Register, x: int, y: int, r: int, high: int, flag: bool,
                    s0: Locals)
    requires IsInt(s0, left, x) && IsInt(s0, right, y) && left.value != v && right.value != v
    requires InI64(r) && r == Arithmetic(Imul, x, y) && high == Arithmetic(Smulhi, x, y)
    requires flag == (high != SignFill(r))
    ensures ExecuteAll(CheckedInsts(MulOp, v, left, right), s0)
            == Some(Set(Set(Set(Set(s0, Reg(v, 0), I64(r)), Reg(v, 1), I64(high)), Reg(v, 2), I64(SignFill(r))),
                        Reg(v, 4), Flag(flag)))
  {
    var insts := CheckedInsts(MulOp, v, left, right);
    var s1 := ArithExecutes(Imul, Reg(v, 0), left, right, x, y, s0);
    var s2 := ArithExecutes(Smulhi, Reg(v, 1), left, right, x, y, s1);
    var s3 := SignExecutes(Reg(v, 2), Reg(v, 0), r, s2);
    var s4 := Set(s3, Reg(v, 4), Flag(flag));
    WordsDiffer(Reg(v, 4), Reg(v, 1), Reg(v, 2), high, SignFill(r), s3);
    FourSteps(insts, [s0, s1, s2, s3, s4]);
  }

  lemma WordsDiffer(dst: Register, a: Register, b: Register, x: int, y: int, s: Locals)
    requires HoldsWord(s, a, Some(I64(x))) && HoldsWord(s, b, Some(I64(y)))
    ensures Execute(Icmp(dst, NotEqual, a, b), s) == Some(Set(s, dst, Flag(x != y)))
  {
  }

  lemma MulSets(v: ValueId, r: int, high: int, sign: int, flag: bool, s: Locals)
    ensures var after := Set(Set(Set(Set(s, Reg(v, 0), I64(r)), Reg(v, 1), I64(high)), Reg(v, 2), I64(sign)),
                             Reg(v, 4), Flag(flag));
            && OnlyTouches(s, after, v) && HoldsWord(after, Reg(v, 0), Some(I64(r)))
            && HoldsWord(after, Reg(v, 4), Some(Flag(flag)))
  {
  }

  lemma SignExecutes(dst: Register, a: Register, x: int, s: Locals) returns (after: Locals)
    requires IsInt(s, a, x)
    ensures Execute(SshrImm(dst, a, MAGNITUDE_BITS), s) == Some(after)
    ensures after == Set(s, dst, I64(SignFill(x)))
  {
    SignWeight();
    after := Set(s, dst, I64(SignFill(x)));
  }

  lemma NegChecks(v: ValueId, operand: Register, x: int, s0: Locals)
    requires IsInt(s0, operand, x) && operand.value != v
    ensures ChecksExactly(CheckedInsts(NegOp, v, operand, operand), s0, v, -x)
  {
    var s1 := Set(s0, Reg(v, 0), I64(Wrap(-x)));
    var insts := CheckedInsts(NegOp, v, operand, operand);
    assert Execute(insts[0], s0) == Some(s1);
    ExecuteChain(insts, [s0, s1, Set(s1, Reg(v, 4), Flag(x == I64_MIN))]);
    NegFlagIsExact(x);
  }

  /** A checked operation either leaves its exact value and a clear flag, or overflows and raises it. */
  lemma CheckedRuns(op: CheckedOp, v: ValueId, left: Register, right: Register, x: int, y: int, s: Locals)
    requires IsInt(s, left, x) && IsInt(s, right, y) && left.value != v && right.value != v
    requires op == NegOp ==> left == right
    ensures Runs(CheckedFragment(op, v, left, right), s, v, Checked(op, Exact(op, x, y)))
  {
    match op
    case AddOp => AddChecks(v, left, right, x, y, s);
    case SubOp => SubChecks(v, left, right, x, y, s);
    case MulOp => MulChecks(v, left, right, x, y, s);
    case NegOp => NegChecks(v, left, x, s);
  }

  /** The register of an operand holds the datum, which is of the operand's scalar. */
  predicate OperandHeld(locals: Locals, v: ValueId, scalar: Scalar, d: Datum) {
    HasScalar(d, scalar) && HoldsWord(locals, Reg(v, 0), WordOf(d))
  }

  lemma BitsRun(op: BitOp, v: ValueId, a: ValueId, b: ValueId, x: int, y: int, s: Locals)
    requires IsInt(s, Reg(a, 0), x) && IsInt(s, Reg(b, 0), y)
    ensures Runs(Fragment(NativeInt(Reg(v, 0)), [Bits(Reg(v, 0), op, Reg(a, 0), Reg(b, 0))], None), s, v,
                 Computed(IntDatum(BitwiseI64(op, x, y))))
  {
    ExecuteOne(Bits(Reg(v, 0), op, Reg(a, 0), Reg(b, 0)), s);
  }

  /** What each comparison means on two data of one scalar. */
  predicate Answers(cc: IntCC, op: BinaryOp, scalar: Scalar) {
    match scalar
    case IntScalar =>
      (cc, op) in {(Equal, Eq), (NotEqual, Ne), (SignedLess, Lt), (SignedLessOrEqual, Le), (SignedGreater, Gt),
                   (SignedGreaterOrEqual, Ge)}
    case BoolScalar =>
      (cc, op) in {(Equal, Eq), (NotEqual, Ne), (UnsignedLess, Lt), (UnsignedLessOrEqual, Le), (UnsignedGreater, Gt),
                   (UnsignedGreaterOrEqual, Ge)}
    case UnitScalar => false
  }

  /** A comparison instruction gives the answer of the comparison it stands for. */
  lemma ComparesAnswer(cc: IntCC, op: BinaryOp, scalar: Scalar, x: Datum, y: Datum)
    requires Answers(cc, op, scalar) && HasScalar(x, scalar) && HasScalar(y, scalar)
    ensures WordOf(x).Some? && WordOf(y).Some?
    ensures EvaluateBinary(op, x, y) == Computed(BoolDatum(Compares(cc, WordOf(x).value, WordOf(y).value)))
  {
    match scalar
    case IntScalar => IntsCompare(cc, op, x.n, y.n);
    case BoolScalar => BoolsCompare(cc, op, x.b, y.b);
  }

  lemma IntsCompare(cc: IntCC, op: BinaryOp, x: int, y: int)
    requires Answers(cc, op, IntScalar) && InI64(x) && InI64(y)
    ensures EvaluateInts(op, x, y) == Computed(BoolDatum(Compares(cc, I64(x), I64(y))))
  {
  }

  lemma BoolsCompare(cc: IntCC, op: BinaryOp, x: bool, y: bool)
    requires Answers(cc, op, BoolScalar)
    ensures EvaluateBools(op, x, y) == Computed(BoolDatum(Compares(cc, Flag(x), Flag(y))))
  {
  }

  lemma IcmpExecutes(cc: IntCC, v: ValueId, a: Register, b: Register, x: Word, y: Word, s: Locals)
    requires HoldsWord(s, a, Some(x)) && HoldsWord(s, b, Some(y)) && TypeOf(x) == TypeOf(y)
    ensures ExecuteAll([Icmp(Reg(v, 0), cc, a, b)], s) == Some(Set(s, Reg(v, 0), Flag(Compares(cc, x, y))))
  {
    ExecuteOne(Icmp(Reg(v, 0), cc, a, b), s);
  }

  lemma IcmpRuns(cc: IntCC, op: BinaryOp, scalar: Scalar, v: ValueId, a: ValueId, b: ValueId, x: Datum, y: Datum,
                 s: Locals)
    requires Answers(cc, op, scalar)
    requires OperandHeld(s, a, scalar, x) && OperandHeld(s, b, scalar, y)
    ensures Runs(Fragment(NativeBool(Reg(v, 0)), [Icmp(Reg(v, 0), cc, Reg(a, 0), Reg(b, 0))], None), s, v,
                 EvaluateBinary(op, x, y))
  {
    ComparesAnswer(cc, op, scalar, x, y);
    IcmpExecutes(cc, v, Reg(a, 0), Reg(b, 0), WordOf(x).value, WordOf(y).value, s);
  }

  lemma ConstantRuns(v: ValueId, word: Word, native: Native, s: Locals, d: Datum)
    requires WordOf(d) == Some(word)
    ensures Runs(Fragment(native, [Iconst(Reg(v, 0), word)], None), s, v, Computed(d))
  {
    ExecuteOne(Iconst(Reg(v, 0), word), s);
  }

  /** A `bool` is inverted by flipping bit 0 of its byte, so it stays 0 or 1. */
  lemma {:induction false} FlipBit(b: bool, bits: nat)
    requires Fits(if b then 1 else 0, bits) && Fits(1, bits)
    ensures Bitwise(Xor, if b then 1 else 0, 1, bits) == if b then 0 else 1
    decreases bits
  {
    assert bits > 0;
    XorZero(bits - 1);
  }

  lemma {:induction false} XorZero(bits: nat)
    ensures Fits(0, bits) && Bitwise(Xor, 0, 0, bits) == 0
    decreases bits
  {
    if bits > 0 {
      XorZero(bits - 1);
    }
  }

  lemma NotRuns(v: ValueId, a: ValueId, scalar: Scalar, d: Datum, natives: Natives, s: Locals)
    requires OperandHeld(s, a, scalar, d) && scalar != UnitScalar
    requires Lookup(natives, a) == Ok(Held(scalar, Reg(a, 0)))
    ensures NotCode(natives, v, a).Ok? && Runs(NotCode(natives, v, a).value, s, v, EvaluateNot(d))
  {
    match d
    case IntDatum(n) => ExecuteOne(Bnot(Reg(v, 0), Reg(a, 0)), s);
    case BoolDatum(b) => {
      assert Pow2(BYTE_BITS) == 256;
      FlipBit(b, BYTE_BITS);
      ExecuteOne(BxorImm(Reg(v, 0), Reg(a, 0), 1), s);
    }
  }
}
