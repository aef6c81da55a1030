/** What a scalar NIR program means: the interpreter's step, frame by frame.

    The refused operators and the unsupported kinds are given no meaning here: reaching one is `Stuck`, as is
    every dynamic check the interpreter makes and answers with an invalid-operation error. */
module NirSemantics {
  import opened Wrappers
  import opened Numeric
  import opened Nir

  datatype Datum = IntDatum(n: int) | BoolDatum(b: bool) | UnitDatum

  type Environment = map<ValueId, Datum>

  /** One activation. `stored` observes which slots were stored since they were last allocated; no step reads it. */
  datatype Frame = Frame(callee: ItemId, block: BlockId, pc: nat, values: Environment, stored: set<ValueId>)

  /** A running program has its innermost frame on `top` and its callers outermost first. */
  datatype State =
    | Running(callers: seq<Frame>, top: Frame)
    | Returned(value: Datum)
    | Failed(op: CheckedOp)
    | Stuck

  /** The result of evaluating one operation: a value, a fatal overflow, or an invalid operation. */
  datatype Evaluation = Computed(datum: Datum) | Overflow(op: CheckedOp) | Invalid

  predicate HasScalar(d: Datum, scalar: Scalar) {
    match scalar
    case IntScalar => d.IntDatum? && InI64(d.n)
    case BoolScalar => d.BoolDatum?
    case UnitScalar => d.UnitDatum?
  }

  predicate HasType(d: Datum, ty: Ty) {
    ScalarOf(ty).Some? && HasScalar(d, ScalarOf(ty).value)
  }

  function EvaluateConstant(value: Const): Evaluation {
    match value
    case IntConst(literal) => if InI64(literal) then Computed(IntDatum(literal)) else Invalid
    case BoolConst(flag) => Computed(BoolDatum(flag))
    case UnitConst => Computed(UnitDatum)
    case OtherConst(_) => Invalid
  }

  function Checked(op: CheckedOp, exact: int): Evaluation {
    if InI64(exact) then Computed(IntDatum(exact)) else Overflow(op)
  }

  function EvaluateInts(op: BinaryOp, x: int, y: int): Evaluation {
    if !InI64(x) || !InI64(y) then Invalid
    else match op
         case Add => Checked(AddOp, x + y)
         case Sub => Checked(SubOp, x - y)
         case Mul => Checked(MulOp, x * y)
         case BitAnd => Computed(IntDatum(BitwiseI64(And, x, y)))
         case BitOr => Computed(IntDatum(BitwiseI64(Or, x, y)))
         case BitXor => Computed(IntDatum(BitwiseI64(Xor, x, y)))
         case Eq => Computed(BoolDatum(x == y))
         case Ne => Computed(BoolDatum(x != y))
         case Lt => Computed(BoolDatum(x < y))
         case Le => Computed(BoolDatum(x <= y))
         case Gt => Computed(BoolDatum(x > y))
         case Ge => Computed(BoolDatum(x >= y))
         case _ => Invalid
  }

  /** `false` orders before `true`. */
  function EvaluateBools(op: BinaryOp, x: bool, y: bool): Evaluation {
    match op
    case Eq => Computed(BoolDatum(x == y))
    case Ne => Computed(BoolDatum(x != y))
    case Lt => Computed(BoolDatum(!x && y))
    case Le => Computed(BoolDatum(!x || y))
    case Gt => Computed(BoolDatum(x && !y))
    case Ge => Computed(BoolDatum(x || !y))
    case _ => Invalid
  }

  function EvaluateBinary(op: BinaryOp, a: Datum, b: Datum): Evaluation {
    match (a, b)
    case (IntDatum(x), IntDatum(y)) => EvaluateInts(op, x, y)
    case (BoolDatum(x), BoolDatum(y)) => EvaluateBools(op, x, y)
    case (UnitDatum, UnitDatum) =>
      if op == Eq then Computed(BoolDatum(true)) else if op == Ne then Computed(BoolDatum(false)) else Invalid
    case _ => Invalid
  }

  function EvaluateNeg(a: Datum): Evaluation {
    match a
    case IntDatum(x) => Checked(NegOp, -x)
    case _ => Invalid
  }

  function EvaluateNot(a: Datum): Evaluation {
    match a
    case IntDatum(x) => if InI64(x) then Computed(IntDatum(BitNot(x))) else Invalid
    case BoolDatum(x) => Computed(BoolDatum(!x))
    case UnitDatum => Invalid
  }

  /** Evaluates every kind but `alloc` and `call`, which act on the frame and the call stack. */
  function Evaluate(values: Environment, kind: ValueKind): Evaluation {
    match kind
    case Constant(value) => EvaluateConstant(value)
    case Load(slot) => if slot in values then Computed(values[slot]) else Invalid
    case Binary(op, a, b) => if a in values && b in values then EvaluateBinary(op, values[a], values[b]) else Invalid
    case Neg(a) => if a in values then EvaluateNeg(values[a]) else Invalid
    case Not(a) => if a in values then EvaluateNot(values[a]) else Invalid
    case _ => Invalid
  }

  /** Binds one computed value, which must be of its declared type, and moves on. */
  function Bind(frame: Frame, result: ValueId, d: Datum): Frame {
    frame.(values := frame.values[result := d], pc := frame.pc + 1)
  }

  function StepValue(functions: Functions, limit: nat, callers: seq<Frame>, top: Frame,
                     result: ValueId, ty: Ty, kind: ValueKind): State
  {
    match kind
    case Alloc => Running(callers, Bind(top, result, UnitDatum).(stored := top.stored - {result}))
    case Call(callee, _, args, _) => StepCall(functions, limit, callers, top, callee, args)
    case _ =>
      match Evaluate(top.values, kind)
      case Computed(d) => if HasType(d, ty) then Running(callers, Bind(top, result, d)) else Stuck
      case Overflow(op) => Failed(op)
      case Invalid => Stuck
  }

  /** The caller stays at the call until its callee returns. */
  function StepCall(functions: Functions, limit: nat, callers: seq<Frame>, top: Frame, callee: ItemId,
                    args: seq<ValueId>): State
  {
    if callee !in functions || |callers| + 1 >= limit then Stuck
    else
      var params := functions[callee].params;
      if |args| != |params| || exists i :: 0 <= i < |args| && args[i] !in top.values then Stuck
      else if exists i :: 0 <= i < |args| && !HasType(top.values[args[i]], params[i].ty) then Stuck
      else Running(callers + [top], Frame(callee, ENTRY_BLOCK, 0, BindParameters(top.values, args, params), {}))
  }

  function BindParameters(values: Environment, args: seq<ValueId>, params: seq<Param>): Environment
    requires |args| == |params|
    requires forall i :: 0 <= i < |args| ==> args[i] in values
  {
    if args == [] then map[]
    else
      assert forall i :: 0 <= i < |args[1..]| ==> args[1..][i] == args[i + 1];
      BindParameters(values, args[..|args| - 1], params[..|params| - 1])
        [params[|params| - 1].value := values[args[|args| - 1]]]
  }

  function StepReturn(functions: Functions, callers: seq<Frame>, d: Datum): State {
    if callers == [] then Returned(d)
    else
      var caller := callers[|callers| - 1];
      match InstructionOf(functions, caller)
      case Some(Value(result, ty, Call(_, _, _, _))) =>
        if HasType(d, ty) then Running(callers[..|callers| - 1], Bind(caller, result, d)) else Stuck
      case _ => Stuck
  }

  function BlockOf(functions: Functions, frame: Frame): Option<BasicBlock> {
    if frame.callee !in functions then None
    else
      var blocks := BlockMap(functions[frame.callee].blocks);
      if frame.block in blocks then Some(blocks[frame.block]) else None
  }

  /** The instruction a frame is at, if it is at one. */
  function InstructionOf(functions: Functions, frame: Frame): Option<Instruction> {
    match BlockOf(functions, frame)
    case Some(block) => if frame.pc < |block.instructions| then Some(block.instructions[frame.pc]) else None
    case None => None
  }

  function EnterBlock(frame: Frame, target: BlockId): Frame {
    frame.(block := target, pc := 0)
  }

  function StepTerminator(functions: Functions, callers: seq<Frame>, top: Frame, terminator: Terminator): State {
    match terminator
    case Return(None) => StepReturn(functions, callers, UnitDatum)
    case Return(Some(v)) =>
      if v in top.values && top.callee in functions && HasType(top.values[v], functions[top.callee].returnType)
      then StepReturn(functions, callers, top.values[v]) else Stuck
    case Branch(target) => Running(callers, EnterBlock(top, target))
    case CondBranch(condition, thenBlock, elseBlock) =>
      if condition in top.values && top.values[condition].BoolDatum? then
        Running(callers, EnterBlock(top, if top.values[condition].b then thenBlock else elseBlock))
      else Stuck
    case _ => Stuck
  }

  /** One step. `limit` is how many frames may be active at once. */
  function Advance(functions: Functions, limit: nat, s: State): State {
    match s
    case Running(callers, top) =>
      (match BlockOf(functions, top)
       case None => Stuck
       case Some(block) =>
         if top.pc < |block.instructions| then
           match block.instructions[top.pc]
           case Value(result, ty, kind) => StepValue(functions, limit, callers, top, result, ty, kind)
           case Store(slot, value, Observe) =>
             if value in top.values then
               Running(callers, Bind(top, slot, top.values[value]).(stored := top.stored + {slot}))
             else Stuck
           case _ => Stuck
         else StepTerminator(functions, callers, top, block.terminator))
    case _ => s
  }

  /** The state after `n` steps. */
  function Run(functions: Functions, limit: nat, s: State, n: nat): State
    decreases n
  {
    if n == 0 then s else Run(functions, limit, Advance(functions, limit, s), n - 1)
  }

  /** The program is about to execute `entry`, which takes no arguments, unless not even one frame is allowed. */
  function Start(entry: ItemId, limit: nat): State {
    if limit == 0 then Stuck else Running([], Frame(entry, ENTRY_BLOCK, 0, map[], {}))
  }

  lemma {:induction false} RunThenStep(functions: Functions, limit: nat, s: State, n: nat)
    ensures Run(functions, limit, s, n + 1) == Advance(functions, limit, Run(functions, limit, s, n))
    decreases n
  {
    if n > 0 {
      RunThenStep(functions, limit, Advance(functions, limit, s), n - 1);
    }
  }

  // What the limit decides.

  /** How many frames are active. */
  function Active(s: State): nat {
    if s.Running? then |s.callers| + 1 else 0
  }

  /** Within the first `n` steps the run holds more than `bound` frames at once. */
  ghost predicate Exceeds(functions: Functions, limit: nat, s: State, n: nat, bound: nat) {
    exists j: nat :: j <= n && Active(Run(functions, limit, s, j)) > bound
  }

  lemma AdvanceAtSmaller(functions: Functions, small: nat, large: nat, s: State)
    requires small <= large && Active(s) <= small
    ensures Advance(functions, small, s)
            == if Active(Advance(functions, large, s)) > small then Stuck else Advance(functions, large, s)
  {
  }

  lemma ExceedsNext(functions: Functions, limit: nat, s: State, n: nat, bound: nat)
    ensures Exceeds(functions, limit, s, n + 1, bound)
            <==> Exceeds(functions, limit, s, n, bound) || Active(Run(functions, limit, s, n + 1)) > bound
    ensures !Exceeds(functions, limit, s, n, bound) ==> Active(Run(functions, limit, s, n)) <= bound
  {
  }

  /** A smaller limit stops a run where it would exceed that limit, and changes nothing else about it. */
  lemma {:induction false} RunAtSmaller(functions: Functions, small: nat, large: nat, s: State, n: nat)
    requires small <= large && Active(s) <= small
    ensures Run(functions, small, s, n)
            == if Exceeds(functions, large, s, n, small) then Stuck else Run(functions, large, s, n)
    decreases n
  {
    if n == 0 {
      assert Run(functions, large, s, 0) == s;
    } else {
      var k := n - 1;
      RunAtSmaller(functions, small, large, s, k);
      ExceedsNext(functions, large, s, k, small);
      OneMoreAtSmaller(functions, small, large, s, k);
    }
  }

  lemma OneMoreAtSmaller(functions: Functions, small: nat, large: nat, s: State, n: nat)
    requires small <= large
    requires Active(Run(functions, large, s, n)) <= small || Run(functions, small, s, n) == Stuck
    ensures Run(functions, small, s, n) == Stuck ==> Run(functions, small, s, n + 1) == Stuck
    ensures Run(functions, small, s, n) == Run(functions, large, s, n) != Stuck ==>
              Run(functions, small, s, n + 1)
              == if Active(Run(functions, large, s, n + 1)) > small then Stuck else Run(functions, large, s, n + 1)
    ensures Run(functions, large, s, n) == Stuck ==> Run(functions, large, s, n + 1) == Stuck
  {
    RunThenStep(functions, small, s, n);
    RunThenStep(functions, large, s, n);
    if Active(Run(functions, large, s, n)) <= small {
      AdvanceAtSmaller(functions, small, large, Run(functions, large, s, n));
    }
  }

  lemma StartAtSmaller(functions: Functions, small: nat, large: nat, entry: ItemId, n: nat)
    requires small <= large
    ensures Run(functions, small, Start(entry, small), n)
            == if Exceeds(functions, large, Start(entry, large), n, small) then Stuck
               else Run(functions, large, Start(entry, large), n)
  {
    if small > 0 {
      RunAtSmaller(functions, small, large, Start(entry, large), n);
    } else {
      OverStays(functions, small, Stuck, n);
      assert Run(functions, large, Start(entry, large), 0) == Start(entry, large);
      if large == 0 {
        forall j: nat
          ensures Run(functions, large, Stuck, j) == Stuck
        {
          OverStays(functions, large, Stuck, j);
        }
      }
    }
  }

  lemma {:induction false} OverStays(functions: Functions, limit: nat, s: State, n: nat)
    requires !s.Running?
    ensures Run(functions, limit, s, n) == s
    decreases n
  {
    if n > 0 {
      OverStays(functions, limit, s, n - 1);
    }
  }

  lemma {:induction false} RunAdds(functions: Functions, limit: nat, s: State, m: nat, n: nat)
    ensures Run(functions, limit, s, m + n) == Run(functions, limit, Run(functions, limit, s, m), n)
    decreases m
  {
    if m > 0 {
      RunAdds(functions, limit, Advance(functions, limit, s), m - 1, n);
    }
  }
}
