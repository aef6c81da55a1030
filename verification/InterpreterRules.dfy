/** The interpreter's step as inference rules: each says when it applies, and no step is taken outside them. */
module InterpreterRules {
  import opened Wrappers
  import opened Nir
  import opened NirSemantics

  /** `d` is a datum of type `ty`. */
  predicate IsOf(d: Datum, ty: Ty) {
    || (ty == I64Ty && d.IntDatum? && -0x8000_0000_0000_0000 <= d.n <= 0x7fff_ffff_ffff_ffff)
    || (ty == BoolTy && d.BoolDatum?)
    || (ty == UnitTy && d.UnitDatum?)
  }

  lemma TypesOfData(d: Datum, ty: Ty)
    ensures HasType(d, ty) <==> IsOf(d, ty)
  {
  }

  /** Two integers go through an operation exactly when both are in the domain and it has a meaning here. */
  lemma IntegersEvaluate(op: BinaryOp, x: int, y: int)
    ensures EvaluateInts(op, x, y).Invalid?
            <==> !IsOf(IntDatum(x), I64Ty) || !IsOf(IntDatum(y), I64Ty) || op in {Div, Rem, Shl, Shr}
    ensures EvaluateNot(IntDatum(x)).Invalid? <==> !IsOf(IntDatum(x), I64Ty)
  {
  }

  ghost predicate InBlock(functions: Functions, frame: Frame) {
    frame.callee in functions && frame.block in BlockMap(functions[frame.callee].blocks)
  }

  ghost predicate At(functions: Functions, frame: Frame, instruction: Instruction) {
    InBlock(functions, frame)
    && var block := BlockMap(functions[frame.callee].blocks)[frame.block];
       frame.pc < |block.instructions| && block.instructions[frame.pc] == instruction
  }

  ghost predicate AtExit(functions: Functions, frame: Frame, terminator: Terminator) {
    InBlock(functions, frame)
    && var block := BlockMap(functions[frame.callee].blocks)[frame.block];
       frame.pc >= |block.instructions| && block.terminator == terminator
  }

  /** The frame after binding one more value. */
  function Bound(frame: Frame, v: ValueId, d: Datum): Frame {
    Frame(frame.callee, frame.block, frame.pc + 1, frame.values[v := d], frame.stored)
  }

  /** A computed datum of the declared type is bound; an overflow ends the run. */
  ghost predicate Follows(callers: seq<Frame>, top: Frame, result: ValueId, ty: Ty, e: Evaluation, t: State) {
    || (e.Computed? && IsOf(e.datum, ty) && t == Running(callers, Bound(top, result, e.datum)))
    || (e.Overflow? && t == Failed(e.op))
  }

  ghost predicate Computes(functions: Functions, callers: seq<Frame>, top: Frame, t: State) {
    exists result, ty, kind ::
      && At(functions, top, Value(result, ty, kind)) && !kind.Alloc? && !kind.Call?
      && Follows(callers, top, result, ty, Evaluate(top.values, kind), t)
  }

  ghost predicate Allocates(functions: Functions, callers: seq<Frame>, top: Frame, t: State) {
    exists slot, ty ::
      && At(functions, top, Value(slot, ty, Alloc))
      && t == Running(callers, Bound(top, slot, UnitDatum).(stored := top.stored - {slot}))
  }

  ghost predicate Stores(functions: Functions, callers: seq<Frame>, top: Frame, t: State) {
    exists slot, v ::
      && At(functions, top, Store(slot, v, Observe)) && v in top.values
      && t == Running(callers, Bound(top, slot, top.values[v]).(stored := top.stored + {slot}))
  }

  /** What a call checks: the callee, room for one more frame, and each argument against its parameter. */
  ghost predicate CanEnter(functions: Functions, limit: nat, depth: nat, values: Environment, callee: ItemId,
                           args: seq<ValueId>)
  {
    && callee in functions && depth < limit && |args| == |functions[callee].params|
    && forall i :: 0 <= i < |args| ==>
                     args[i] in values && IsOf(values[args[i]], functions[callee].params[i].ty)
  }

  ghost predicate Enters(functions: Functions, limit: nat, callers: seq<Frame>, top: Frame, t: State) {
    exists result, ty, callee, typeArgs, args, evidence ::
      && At(functions, top, Value(result, ty, Call(callee, typeArgs, args, evidence)))
      && CanEnter(functions, limit, |callers| + 1, top.values, callee, args)
      && t == Running(callers + [top],
                      Frame(callee, 0, 0, BindParameters(top.values, args, functions[callee].params), {}))
  }

  ghost predicate Jumps(functions: Functions, callers: seq<Frame>, top: Frame, t: State) {
    || (exists target :: AtExit(functions, top, Branch(target))
                         && t == Running(callers, top.(block := target, pc := 0)))
    || (exists condition, yes: BlockId, no: BlockId ::
          && AtExit(functions, top, CondBranch(condition, yes, no))
          && condition in top.values && top.values[condition].BoolDatum?
          && t == Running(callers,
                          top.(block := if top.values[condition] == BoolDatum(true) then yes else no, pc := 0)))
  }

  ghost predicate Resumes(functions: Functions, below: seq<Frame>, caller: Frame, result: ValueId, ty: Ty, d: Datum,
                          t: State)
  {
    && (exists callee, typeArgs, args, evidence ::
          At(functions, caller, Value(result, ty, Call(callee, typeArgs, args, evidence))))
    && IsOf(d, ty) && t == Running(below, Bound(caller, result, d))
  }

  /** Giving `d` to whoever called: the caller binds it at its call, or it is the result of the program. */
  ghost predicate GivesBack(functions: Functions, callers: seq<Frame>, d: Datum, t: State) {
    if callers == [] then t == Returned(d)
    else CallerGoesOn(functions, callers[..|callers| - 1], callers[|callers| - 1], d, t)
  }

  ghost predicate CallerGoesOn(functions: Functions, below: seq<Frame>, caller: Frame, d: Datum, t: State) {
    exists result, ty :: Resumes(functions, below, caller, result, ty, d, t)
  }

  ghost predicate Returns(functions: Functions, callers: seq<Frame>, top: Frame, t: State) {
    || (AtExit(functions, top, Return(None)) && GivesBack(functions, callers, UnitDatum, t))
    || (exists v :: AtExit(functions, top, Return(Some(v))) && v in top.values
                    && IsOf(top.values[v], functions[top.callee].returnType)
                    && GivesBack(functions, callers, top.values[v], t))
  }

  /** One of the rules leads from a running state to `t`. */
  ghost predicate StepsTo(functions: Functions, limit: nat, callers: seq<Frame>, top: Frame, t: State) {
    || Computes(functions, callers, top, t)
    || Allocates(functions, callers, top, t)
    || Stores(functions, callers, top, t)
    || Enters(functions, limit, callers, top, t)
    || Jumps(functions, callers, top, t)
    || Returns(functions, callers, top, t)
  }

  lemma CallsByRule(functions: Functions, limit: nat, callers: seq<Frame>, top: Frame, callee: ItemId,
                    args: seq<ValueId>)
    ensures StepCall(functions, limit, callers, top, callee, args)
            == if CanEnter(functions, limit, |callers| + 1, top.values, callee, args)
               then Running(callers + [top],
                            Frame(callee, 0, 0, BindParameters(top.values, args, functions[callee].params), {}))
               else Stuck
  {
    if callee in functions && |args| == |functions[callee].params| {
      forall i | 0 <= i < |args| && args[i] in top.values
        ensures HasType(top.values[args[i]], functions[callee].params[i].ty)
                <==> IsOf(top.values[args[i]], functions[callee].params[i].ty)
      {
        TypesOfData(top.values[args[i]], functions[callee].params[i].ty);
      }
    }
  }

  lemma GivesBackByRule(functions: Functions, callers: seq<Frame>, d: Datum)
    ensures StepReturn(functions, callers, d) != Stuck ==>
              GivesBack(functions, callers, d, StepReturn(functions, callers, d))
    ensures forall t :: GivesBack(functions, callers, d, t) ==> t == StepReturn(functions, callers, d) && t != Stuck
  {
    if callers != [] {
      match InstructionOf(functions, callers[|callers| - 1])
      case Some(Value(result, ty, Call(callee, typeArgs, args, evidence))) =>
        TypesOfData(d, ty);
        assert At(functions, callers[|callers| - 1], Value(result, ty, Call(callee, typeArgs, args, evidence)));
        assert HasType(d, ty) ==>
            Resumes(functions, callers[..|callers| - 1], callers[|callers| - 1], result, ty, d,
                    StepReturn(functions, callers, d));
      case _ =>
    }
  }

  /** At an instruction, only the rule of its kind can apply. */
  lemma RuleOfKind(functions: Functions, limit: nat, callers: seq<Frame>, top: Frame, result: ValueId, ty: Ty,
                   kind: ValueKind, t: State)
    requires At(functions, top, Value(result, ty, kind)) && StepsTo(functions, limit, callers, top, t)
    ensures if kind.Alloc? then Allocates(functions, callers, top, t)
            else if kind.Call? then Enters(functions, limit, callers, top, t)
            else Computes(functions, callers, top, t)
  {
  }

  lemma ComputesByRule(functions: Functions, limit: nat, callers: seq<Frame>, top: Frame, result: ValueId, ty: Ty,
                       kind: ValueKind)
    requires At(functions, top, Value(result, ty, kind)) && !kind.Alloc? && !kind.Call?
    ensures var next := StepValue(functions, limit, callers, top, result, ty, kind);
            && (next != Stuck ==> Computes(functions, callers, top, next))
            && forall t :: Computes(functions, callers, top, t) ==> t == next && t != Stuck
  {
    match Evaluate(top.values, kind)
    case Computed(d) => TypesOfData(d, ty);
    case _ =>
  }

  lemma ValueByRule(functions: Functions, limit: nat, callers: seq<Frame>, top: Frame, result: ValueId, ty: Ty,
                    kind: ValueKind)
    requires At(functions, top, Value(result, ty, kind))
    ensures var next := StepValue(functions, limit, callers, top, result, ty, kind);
            && (next != Stuck ==> StepsTo(functions, limit, callers, top, next))
            && forall t :: StepsTo(functions, limit, callers, top, t) ==> t == next && t != Stuck
  {
    forall t | StepsTo(functions, limit, callers, top, t)
      ensures if kind.Alloc? then Allocates(functions, callers, top, t)
              else if kind.Call? then Enters(functions, limit, callers, top, t)
              else Computes(functions, callers, top, t)
    {
      RuleOfKind(functions, limit, callers, top, result, ty, kind, t);
    }
    match kind
    case Alloc =>
    case Call(callee, typeArgs, args, evidence) =>
      CallsByRule(functions, limit, callers, top, callee, args);
    case _ => ComputesByRule(functions, limit, callers, top, result, ty, kind);
  }

  /** At the end of a block, only the rule of its terminator can apply. */
  lemma RuleOfExit(functions: Functions, limit: nat, callers: seq<Frame>, top: Frame, terminator: Terminator, t: State)
    requires AtExit(functions, top, terminator) && StepsTo(functions, limit, callers, top, t)
    ensures if terminator.Return? then Returns(functions, callers, top, t) else Jumps(functions, callers, top, t)
  {
  }

  lemma JumpByRule(functions: Functions, callers: seq<Frame>, top: Frame, terminator: Terminator)
    requires AtExit(functions, top, terminator) && !terminator.Return?
    ensures var next := StepTerminator(functions, callers, top, terminator);
            && (next != Stuck ==> Jumps(functions, callers, top, next))
            && forall t :: Jumps(functions, callers, top, t) ==> t == next && t != Stuck
  {
  }

  lemma ReturnByRule(functions: Functions, callers: seq<Frame>, top: Frame, terminator: Terminator)
    requires AtExit(functions, top, terminator) && terminator.Return?
    ensures var next := StepTerminator(functions, callers, top, terminator);
            && (next != Stuck ==> Returns(functions, callers, top, next))
            && forall t :: Returns(functions, callers, top, t) ==> t == next && t != Stuck
  {
    match terminator
    case Return(None) => GivesBackByRule(functions, callers, UnitDatum);
    case Return(Some(v)) =>
      if v in top.values {
        TypesOfData(top.values[v], functions[top.callee].returnType);
        GivesBackByRule(functions, callers, top.values[v]);
      }
  }

  lemma ExitByRule(functions: Functions, limit: nat, callers: seq<Frame>, top: Frame, terminator: Terminator)
    requires AtExit(functions, top, terminator)
    ensures var next := StepTerminator(functions, callers, top, terminator);
            && (next != Stuck ==> StepsTo(functions, limit, callers, top, next))
            && forall t :: StepsTo(functions, limit, callers, top, t) ==> t == next && t != Stuck
  {
    forall t | StepsTo(functions, limit, callers, top, t)
      ensures if terminator.Return? then Returns(functions, callers, top, t) else Jumps(functions, callers, top, t)
    {
      RuleOfExit(functions, limit, callers, top, terminator, t);
    }
    if terminator.Return? {
      ReturnByRule(functions, callers, top, terminator);
    } else {
      JumpByRule(functions, callers, top, terminator);
    }
  }

  /** The interpreter takes exactly the steps of the rules; where none applies it is stuck, and what has ended stays. */
  lemma AdvancesByRules(functions: Functions, limit: nat, s: State)
    ensures !s.Running? ==> Advance(functions, limit, s) == s
    ensures s.Running? ==>
              var next := Advance(functions, limit, s);
              && (next != Stuck ==> StepsTo(functions, limit, s.callers, s.top, next))
              && forall t :: StepsTo(functions, limit, s.callers, s.top, t) ==> t == next && t != Stuck
  {
    if s.Running? && InBlock(functions, s.top) {
      var block := BlockMap(functions[s.top.callee].blocks)[s.top.block];
      if s.top.pc < |block.instructions| {
        match block.instructions[s.top.pc]
        case Value(result, ty, kind) => ValueByRule(functions, limit, s.callers, s.top, result, ty, kind);
        case _ =>
      } else {
        ExitByRule(functions, limit, s.callers, s.top, block.terminator);
      }
    }
  }
}
